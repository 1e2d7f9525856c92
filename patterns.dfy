/**
 * The fragment of Python regular expressions that the injection blocklist
 * uses, with `re.search` under `re.IGNORECASE`: literal text, `\s*`, `\s+`,
 * an optional character `c?` and a group of literal alternatives `(a|b|c)`.
 * Only whether a match exists matters to the caller, so matching is stated
 * as existence rather than as Python's backtracking order.
 */
module Patterns {
  import opened Text

  datatype Token =
    | Literal(word: string)     // the characters of `word`, ignoring ASCII case
    | AnySpace                  // \s*
    | SomeSpace                 // \s+
    | Optional(c: char)         // c?
    | OneOf(words: seq<string>) // (w1|w2|...)

  type Pattern = seq<Token>

  /** Number of alternatives still to try in a leading group: the measure that shrinks when a group is unfolded. */
  function Alternatives(p: Pattern): nat
  {
    if p != [] && p[0].OneOf? then |p[0].words| else 0
  }

  /** Some prefix of `s` matches `p`, the way `re.match` tests a pattern at one position. */
  predicate MatchesPrefix(p: Pattern, s: string)
    decreases |s|, |p|, Alternatives(p)
  {
    if p == [] then true
    else match p[0]
      case Literal(w) =>
        |w| <= |s| && SameIgnoringCase(s[..|w|], w) && MatchesPrefix(p[1..], s[|w|..])
      case AnySpace =>
        MatchesPrefix(p[1..], s) || (s != [] && IsSpace(s[0]) && MatchesPrefix(p, s[1..]))
      case SomeSpace =>
        s != [] && IsSpace(s[0]) && MatchesPrefix([AnySpace] + p[1..], s[1..])
      case Optional(c) =>
        (s != [] && Lower(s[0]) == Lower(c) && MatchesPrefix(p[1..], s[1..])) || MatchesPrefix(p[1..], s)
      case OneOf(ws) =>
        ws != [] && (MatchesPrefix([Literal(ws[0])] + p[1..], s) || MatchesPrefix([OneOf(ws[1..])] + p[1..], s))
  }

  /**
   * `re.search(p, s, re.IGNORECASE)` succeeds: scanning start positions from
   * the left finds one where `p` matches.
   */
  predicate Search(p: Pattern, s: string)
  {
    MatchesPrefix(p, s) || (s != [] && Search(p, s[1..]))
  }

  /** The scan finds a match exactly when `p` matches at some position of `s`. */
  lemma {:induction false} SearchFindsMatch(p: Pattern, s: string)
    ensures Search(p, s) <==> exists i :: 0 <= i <= |s| && MatchesPrefix(p, s[i..])
  {
    assert s[0..] == s;
    if s != [] {
      SearchFindsMatch(p, s[1..]);
      assert forall i :: 1 <= i <= |s| ==> s[1..][i - 1..] == s[i..];
    }
  }

  /** A match found in a prefix of `s` is still found when more text follows. */
  lemma {:induction false} MatchesPrefixExtend(p: Pattern, s: string, t: string)
    requires MatchesPrefix(p, s)
    ensures MatchesPrefix(p, s + t)
    decreases |s|, |p|, Alternatives(p)
  {
    if p != [] {
      match p[0]
      case Literal(w) =>
        assert (s + t)[..|w|] == s[..|w|];
        assert (s + t)[|w|..] == s[|w|..] + t;
        MatchesPrefixExtend(p[1..], s[|w|..], t);
      case AnySpace =>
        if MatchesPrefix(p[1..], s) {
          MatchesPrefixExtend(p[1..], s, t);
        } else {
          assert (s + t)[1..] == s[1..] + t;
          MatchesPrefixExtend(p, s[1..], t);
        }
      case SomeSpace =>
        assert (s + t)[1..] == s[1..] + t;
        MatchesPrefixExtend([AnySpace] + p[1..], s[1..], t);
      case Optional(c) =>
        if s != [] && Lower(s[0]) == Lower(c) && MatchesPrefix(p[1..], s[1..]) {
          assert (s + t)[1..] == s[1..] + t;
          MatchesPrefixExtend(p[1..], s[1..], t);
        } else {
          MatchesPrefixExtend(p[1..], s, t);
        }
      case OneOf(ws) =>
        if MatchesPrefix([Literal(ws[0])] + p[1..], s) {
          MatchesPrefixExtend([Literal(ws[0])] + p[1..], s, t);
        } else {
          MatchesPrefixExtend([OneOf(ws[1..])] + p[1..], s, t);
        }
    }
  }

  /** `re.search` finds a match anywhere: text around a match does not hide it. */
  lemma {:induction false} SearchInContext(p: Pattern, a: string, x: string, b: string)
    requires Search(p, x)
    ensures Search(p, a + x + b)
  {
    SearchFindsMatch(p, x);
    var i :| 0 <= i <= |x| && MatchesPrefix(p, x[i..]);
    MatchesPrefixExtend(p, x[i..], b);
    assert (a + x + b)[|a| + i..] == x[i..] + b;
    SearchFindsMatch(p, a + x + b);
  }

  /** Whether `p` matches at the front of `s` does not depend on letter case. */
  lemma {:induction false} MatchesPrefixIgnoresCase(p: Pattern, s: string, t: string)
    requires SameIgnoringCase(s, t)
    ensures MatchesPrefix(p, s) <==> MatchesPrefix(p, t)
    decreases |s|, |p|, Alternatives(p)
  {
    if p != [] {
      match p[0]
      case Literal(w) =>
        if |w| <= |s| {
          assert SameIgnoringCase(s[..|w|], w) <==> SameIgnoringCase(t[..|w|], w) by {
            if SameIgnoringCase(s[..|w|], w) {
              assert forall i :: 0 <= i < |w| ==> Lower(t[..|w|][i]) == Lower(s[..|w|][i]);
            }
            if SameIgnoringCase(t[..|w|], w) {
              assert forall i :: 0 <= i < |w| ==> Lower(t[..|w|][i]) == Lower(s[..|w|][i]);
            }
          }
          MatchesPrefixIgnoresCase(p[1..], s[|w|..], t[|w|..]);
        }
      case AnySpace =>
        MatchesPrefixIgnoresCase(p[1..], s, t);
        if s != [] {
          SpaceIgnoresCase(s[0], t[0]);
          MatchesPrefixIgnoresCase(p, s[1..], t[1..]);
        }
      case SomeSpace =>
        if s != [] {
          SpaceIgnoresCase(s[0], t[0]);
          MatchesPrefixIgnoresCase([AnySpace] + p[1..], s[1..], t[1..]);
        }
      case Optional(c) =>
        MatchesPrefixIgnoresCase(p[1..], s, t);
        if s != [] {
          MatchesPrefixIgnoresCase(p[1..], s[1..], t[1..]);
        }
      case OneOf(ws) =>
        if ws != [] {
          MatchesPrefixIgnoresCase([Literal(ws[0])] + p[1..], s, t);
          MatchesPrefixIgnoresCase([OneOf(ws[1..])] + p[1..], s, t);
        }
    }
  }

  /** `re.IGNORECASE`: changing the case of letters never changes whether `re.search` succeeds. */
  lemma {:induction false} SearchIgnoresCase(p: Pattern, s: string, t: string)
    requires SameIgnoringCase(s, t)
    ensures Search(p, s) <==> Search(p, t)
  {
    SearchFindsMatch(p, s);
    SearchFindsMatch(p, t);
    forall i | 0 <= i <= |s|
      ensures MatchesPrefix(p, s[i..]) <==> MatchesPrefix(p, t[i..])
    {
      assert forall k :: 0 <= k < |s| - i ==> Lower(s[i..][k]) == Lower(t[i..][k]) by {
        forall k | 0 <= k < |s| - i ensures Lower(s[i..][k]) == Lower(t[i..][k]) {
          assert s[i..][k] == s[i + k] && t[i..][k] == t[i + k];
        }
      }
      MatchesPrefixIgnoresCase(p, s[i..], t[i..]);
    }
  }

  /** The shortest text a group of alternatives can match. */
  function ShortestWord(ws: seq<string>): nat
  {
    if ws == [] then 0
    else if |ws| == 1 then |ws[0]|
    else if |ws[0]| <= ShortestWord(ws[1..]) then |ws[0]|
    else ShortestWord(ws[1..])
  }

  /** The shortest text `p` can match. */
  function MinLength(p: Pattern): nat
  {
    if p == [] then 0
    else
      var first := match p[0]
        case Literal(w) => |w|
        case AnySpace => 0
        case SomeSpace => 1
        case Optional(_) => 0
        case OneOf(ws) => ShortestWord(ws);
      first + MinLength(p[1..])
  }

  /** Every prefix that matches `p` is at least `MinLength(p)` long. */
  lemma {:induction false} MatchNeedsMinLength(p: Pattern, s: string)
    requires MatchesPrefix(p, s)
    ensures |s| >= MinLength(p)
    decreases |s|, |p|, Alternatives(p)
  {
    if p != [] {
      match p[0]
      case Literal(w) =>
        MatchNeedsMinLength(p[1..], s[|w|..]);
      case AnySpace =>
        if MatchesPrefix(p[1..], s) {
          MatchNeedsMinLength(p[1..], s);
        } else {
          MatchNeedsMinLength(p, s[1..]);
        }
      case SomeSpace =>
        var q := [AnySpace] + p[1..];
        MatchNeedsMinLength(q, s[1..]);
        assert q[1..] == p[1..];
      case Optional(c) =>
        if s != [] && Lower(s[0]) == Lower(c) && MatchesPrefix(p[1..], s[1..]) {
          MatchNeedsMinLength(p[1..], s[1..]);
        } else {
          MatchNeedsMinLength(p[1..], s);
        }
      case OneOf(ws) =>
        if MatchesPrefix([Literal(ws[0])] + p[1..], s) {
          var q := [Literal(ws[0])] + p[1..];
          MatchNeedsMinLength(q, s);
          assert q[1..] == p[1..];
        } else {
          var q := [OneOf(ws[1..])] + p[1..];
          MatchNeedsMinLength(q, s);
          assert q[1..] == p[1..];
        }
    }
  }

  /** `re.search` cannot succeed on a text shorter than the shortest match. */
  lemma {:induction false} SearchNeedsMinLength(p: Pattern, s: string)
    requires Search(p, s)
    ensures |s| >= MinLength(p)
  {
    SearchFindsMatch(p, s);
    var i :| 0 <= i <= |s| && MatchesPrefix(p, s[i..]);
    MatchNeedsMinLength(p, s[i..]);
  }

  /** A pattern that opens with literal text can only be found where that text's first letter occurs. */
  lemma {:induction false} SearchNeedsFirstLetter(p: Pattern, s: string)
    requires p != [] && p[0].Literal? && p[0].word != []
    requires Search(p, s)
    ensures exists i :: 0 <= i < |s| && Lower(s[i]) == Lower(p[0].word[0])
  {
    SearchFindsMatch(p, s);
    var i :| 0 <= i <= |s| && MatchesPrefix(p, s[i..]);
    assert s[i..][..|p[0].word|][0] == s[i];
  }

  /** Literal text followed by a match of the rest of the pattern is a match. */
  lemma {:induction false} MatchLiteral(w: string, rest: Pattern, s: string)
    requires MatchesPrefix(rest, s)
    ensures MatchesPrefix([Literal(w)] + rest, w + s)
  {
    assert (w + s)[..|w|] == w && (w + s)[|w|..] == s;
    assert ([Literal(w)] + rest)[1..] == rest;
  }

  /** A run of whitespace, possibly empty, followed by a match of the rest is a match of `\s*` and the rest. */
  lemma {:induction false} MatchAnySpace(w: string, rest: Pattern, s: string)
    requires AllSpace(w) && MatchesPrefix(rest, s)
    ensures MatchesPrefix([AnySpace] + rest, w + s)
    decreases |w|
  {
    assert ([AnySpace] + rest)[1..] == rest;
    if w == [] {
      assert w + s == s;
    } else {
      MatchAnySpace(w[1..], rest, s);
      assert (w + s)[1..] == w[1..] + s;
    }
  }

  /** A non-empty run of whitespace followed by a match of the rest is a match of `\s+` and the rest. */
  lemma {:induction false} MatchSomeSpace(w: string, rest: Pattern, s: string)
    requires w != [] && AllSpace(w) && MatchesPrefix(rest, s)
    ensures MatchesPrefix([SomeSpace] + rest, w + s)
  {
    assert ([SomeSpace] + rest)[1..] == rest;
    MatchAnySpace(w[1..], rest, s);
    assert (w + s)[1..] == w[1..] + s;
  }

  /** The optional character, present or absent, followed by a match of the rest is a match. */
  lemma {:induction false} MatchOptional(c: char, present: bool, rest: Pattern, s: string)
    requires MatchesPrefix(rest, s)
    ensures MatchesPrefix([Optional(c)] + rest, (if present then [c] else []) + s)
  {
    assert ([Optional(c)] + rest)[1..] == rest;
    if present {
      assert ([c] + s)[1..] == s;
    } else {
      assert [] + s == s;
    }
  }

  /** Any alternative of a group followed by a match of the rest is a match. */
  lemma {:induction false} MatchOneOf(ws: seq<string>, k: nat, rest: Pattern, s: string)
    requires k < |ws| && MatchesPrefix(rest, s)
    ensures MatchesPrefix([OneOf(ws)] + rest, ws[k] + s)
    decreases k
  {
    assert ([OneOf(ws)] + rest)[1..] == rest;
    if k == 0 {
      MatchLiteral(ws[0], rest, s);
    } else {
      MatchOneOf(ws[1..], k - 1, rest, s);
    }
  }
}
