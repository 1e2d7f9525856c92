/**
 * `sanitize_input`: accepts only a non-empty string, strips the whitespace
 * around it and refuses it when any of six fixed injection patterns occurs
 * anywhere in it, ignoring case. It does not look at length.
 */
module Sanitizer {
  import opened Wrappers
  import opened Json
  import opened Text
  import opened Patterns

  /** `ignore\s+(previous|above|all)\s+instructions?` */
  const IgnoreInstructions: Pattern :=
    [Literal("ignore"), SomeSpace, OneOf(["previous", "above", "all"]), SomeSpace, Literal("instruction"), Optional('s')]

  /** `system\s*:?\s*(prompt|message|shutdown)` */
  const SystemDirective: Pattern :=
    [Literal("system"), AnySpace, Optional(':'), AnySpace, OneOf(["prompt", "message", "shutdown"])]

  /** `translate\s+the\s+above` */
  const TranslateAbove: Pattern :=
    [Literal("translate"), SomeSpace, Literal("the"), SomeSpace, Literal("above")]

  /** `forget\s+(everything|all|previous)` */
  const ForgetContext: Pattern :=
    [Literal("forget"), SomeSpace, OneOf(["everything", "all", "previous"])]

  /** `<\s*script`, a cross-site scripting attempt */
  const ScriptTag: Pattern :=
    [Literal("<"), AnySpace, Literal("script")]

  /** `DROP\s+TABLE`, a basic SQL injection */
  const DropTable: Pattern :=
    [Literal("DROP"), SomeSpace, Literal("TABLE")]

  /** The blocklist, in the order the source tries it. */
  const DangerousPatterns: seq<Pattern> :=
    [IgnoreInstructions, SystemDirective, TranslateAbove, ForgetContext, ScriptTag, DropTable]

  /** Some pattern of the blocklist occurs somewhere in `text`. */
  predicate Blocked(text: string) {
    exists k :: 0 <= k < |DangerousPatterns| && Search(DangerousPatterns[k], text)
  }

  /**
   * `sanitize_input(text)`: `None` for a falsy or non-string value and for a
   * stripped text in which a blocked pattern occurs; otherwise the stripped
   * text, which is unpadded and in which no pattern of the blocklist occurs.
   */
  function Sanitize(text: Json): (r: Option<string>)
    ensures !text.JString? || text.str == [] ==> r == None
    ensures r.Some? ==> r.value == Strip(text.str)
    ensures r.Some? ==> Unpadded(r.value)
    ensures r.Some? ==> forall k :: 0 <= k < |DangerousPatterns| ==> !Search(DangerousPatterns[k], r.value)
    ensures text.JString? && text.str != [] && !Blocked(Strip(text.str)) ==> r.Some?
  {
    if !Truthy(text) || !text.JString? then None
    else
      var t := Strip(text.str);
      if Blocked(t) then None else Some(t)
  }

  /** Every pattern of the blocklist needs at least seven characters to match. */
  lemma {:induction false} BlocklistMinLength(k: nat)
    requires k < |DangerousPatterns|
    ensures MinLength(DangerousPatterns[k]) >= 7
  {
    assert ShortestWord(["previous", "above", "all"]) == 3;
    assert ShortestWord(["prompt", "message", "shutdown"]) == 6;
    assert ShortestWord(["everything", "all", "previous"]) == 3;
  }

  /** No text shorter than seven characters is ever refused by the blocklist. */
  lemma {:induction false} ShortTextNeverBlocked(text: string)
    requires |text| < 7
    ensures !Blocked(text)
  {
    forall k | 0 <= k < |DangerousPatterns|
      ensures !Search(DangerousPatterns[k], text)
    {
      BlocklistMinLength(k);
      if Search(DangerousPatterns[k], text) {
        SearchNeedsMinLength(DangerousPatterns[k], text);
      }
    }
  }

  /**
   * The blocklist can only refuse a text holding one of the letters its
   * patterns open with (`i`, `s`, `t`, `f`, `d` in either case) or `<`.
   */
  lemma {:induction false} BlockedNeedsOpeningLetter(text: string)
    requires forall i :: 0 <= i < |text| ==> Lower(text[i]) !in {'i', 's', 't', 'f', 'd', '<'}
    ensures !Blocked(text)
  {
    forall k | 0 <= k < |DangerousPatterns|
      ensures !Search(DangerousPatterns[k], text)
    {
      if Search(DangerousPatterns[k], text) {
        SearchNeedsFirstLetter(DangerousPatterns[k], text);
      }
    }
  }

  /** A message with no letter that opens a pattern is not refused once stripped either. */
  lemma {:induction false} StrippedNeedsOpeningLetter(s: string)
    requires forall i :: 0 <= i < |s| ==> Lower(s[i]) !in {'i', 's', 't', 'f', 'd', '<'}
    ensures !Blocked(Strip(s))
  {
    StripIsSlice(s);
    var t := Strip(s);
    assert forall j :: 0 <= j < |t| ==> t[j] == s[Leading(s) + j];
    BlockedNeedsOpeningLetter(t);
  }

  /** A match of a blocked pattern anywhere inside the stripped text makes `sanitize_input` refuse. */
  lemma {:induction false} RejectsMatchAnywhere(s: string, k: nat, before: string, x: string, after: string)
    requires k < |DangerousPatterns|
    requires Strip(s) == before + x + after
    requires Search(DangerousPatterns[k], x)
    ensures Sanitize(JString(s)) == None
  {
    SearchInContext(DangerousPatterns[k], before, x, after);
  }

  /** Whitespace around a non-empty message never changes the outcome. */
  lemma {:induction false} SanitizeIgnoresPadding(a: string, x: string, b: string)
    requires AllSpace(a) && AllSpace(b) && x != []
    ensures Sanitize(JString(a + x + b)) == Sanitize(JString(x))
  {
    StripIgnoresPadding(a, x, b);
  }

  /** The letter case of a text never changes whether the blocklist refuses it. */
  lemma {:induction false} BlockedIgnoresCase(x: string, y: string)
    requires SameIgnoringCase(x, y)
    ensures Blocked(x) <==> Blocked(y)
  {
    forall k | 0 <= k < |DangerousPatterns|
      ensures Search(DangerousPatterns[k], x) <==> Search(DangerousPatterns[k], y)
    {
      SearchIgnoresCase(DangerousPatterns[k], x, y);
    }
  }

  /** The letter case of a message never changes whether it is refused. */
  lemma {:induction false} SanitizeIgnoresCase(x: string, y: string)
    requires SameIgnoringCase(x, y)
    ensures Sanitize(JString(x)).Some? <==> Sanitize(JString(y)).Some?
  {
    StripIgnoresCase(x, y);
    BlockedIgnoresCase(Strip(x), Strip(y));
  }

  /** Sanitizing an accepted, non-empty result again gives it back unchanged. */
  lemma {:induction false} SanitizeIdempotent(s: string, t: string)
    requires Sanitize(JString(s)) == Some(t) && t != []
    ensures Sanitize(JString(t)) == Some(t)
  {
    StripIdempotent(s);
  }

  /**
   * Idempotence fails on whitespace-only input: it is accepted as the empty
   * string, which a second call refuses as falsy.
   */
  lemma {:induction false} WhitespaceOnlyYieldsEmpty(s: string)
    requires s != [] && AllSpace(s)
    ensures Sanitize(JString(s)) == Some([])
    ensures Sanitize(JString(Sanitize(JString(s)).value)) == None
  {
    assert s + [] + [] == s;
    StripPadded(s, [], []);
    ShortTextNeverBlocked([]);
  }

  /**
   * "ignore", a run of whitespace, alternative `k` of the group, a run of
   * whitespace, "instruction", then `tail`.
   */
  function IgnorePhrase(k: nat, sp1: string, sp2: string, tail: string): string
    requires k < 3
  {
    "ignore" + (sp1 + (["previous", "above", "all"][k] + (sp2 + ("instruction" + tail))))
  }

  /** The end of the first pattern, from its group on, matches an alternative, whitespace and "instruction". */
  lemma {:induction false} IgnoreInstructionsTailMatches(k: nat, sp2: string, tail: string)
    requires k < 3 && sp2 != [] && AllSpace(sp2)
    ensures MatchesPrefix(IgnoreInstructions[2..], ["previous", "above", "all"][k] + (sp2 + ("instruction" + tail)))
  {
    var p := IgnoreInstructions;
    var s4 := "instruction" + tail;
    assert MatchesPrefix(p[4..], s4) by {
      assert MatchesPrefix(p[5..], tail);
      MatchLiteral("instruction", p[5..], tail);
      assert [Literal("instruction")] + p[5..] == p[4..];
    }
    assert MatchesPrefix(p[3..], sp2 + s4) by {
      MatchSomeSpace(sp2, p[4..], s4);
      assert [SomeSpace] + p[4..] == p[3..];
    }
    MatchOneOf(["previous", "above", "all"], k, p[3..], sp2 + s4);
    assert [OneOf(["previous", "above", "all"])] + p[3..] == p[2..];
  }

  /**
   * The first pattern of the blocklist matches "ignore", whitespace, any of
   * its three alternatives, whitespace and "instruction", whatever follows.
   */
  lemma {:induction false} IgnoreInstructionsMatches(k: nat, sp1: string, sp2: string, tail: string)
    requires k < 3 && sp1 != [] && AllSpace(sp1) && sp2 != [] && AllSpace(sp2)
    ensures MatchesPrefix(IgnoreInstructions, IgnorePhrase(k, sp1, sp2, tail))
  {
    var p := IgnoreInstructions;
    var s2 := ["previous", "above", "all"][k] + (sp2 + ("instruction" + tail));
    IgnoreInstructionsTailMatches(k, sp2, tail);
    assert MatchesPrefix(p[1..], sp1 + s2) by {
      MatchSomeSpace(sp1, p[2..], s2);
      assert [SomeSpace] + p[2..] == p[1..];
    }
    MatchLiteral("ignore", p[1..], sp1 + s2);
    assert [Literal("ignore")] + p[1..] == p;
  }

  /** The message "ignore previous instructions" is caught by the first pattern. */
  lemma {:induction false} IgnorePreviousInstructionsBlocked()
    ensures Blocked("ignore previous instructions")
  {
    var s := "ignore previous instructions";
    assert s == IgnorePhrase(0, " ", " ", "s");
    IgnoreInstructionsMatches(0, " ", " ", "s");
    assert Search(DangerousPatterns[0], s);
  }

  /**
   * The second pattern matches "system", a possibly empty run of whitespace,
   * an optional colon, another such run and any of its three alternatives,
   * whatever follows; the blocklist refuses that text.
   */
  lemma {:induction false} SystemDirectiveMatches(k: nat, sp1: string, colon: bool, sp2: string, tail: string)
    requires k < 3 && AllSpace(sp1) && AllSpace(sp2)
    ensures var x := "system" + (sp1 + ((if colon then ":" else "") + (sp2 + (["prompt", "message", "shutdown"][k] + tail))));
      MatchesPrefix(SystemDirective, x) && Blocked(x)
  {
    var p := SystemDirective;
    var s4 := ["prompt", "message", "shutdown"][k] + tail;
    var s2 := (if colon then ":" else "") + (sp2 + s4);
    assert MatchesPrefix(p[3..], sp2 + s4) by {
      assert MatchesPrefix(p[5..], tail);
      MatchOneOf(["prompt", "message", "shutdown"], k, p[5..], tail);
      assert [OneOf(["prompt", "message", "shutdown"])] + p[5..] == p[4..];
      MatchAnySpace(sp2, p[4..], s4);
      assert [AnySpace] + p[4..] == p[3..];
    }
    assert MatchesPrefix(p[1..], sp1 + s2) by {
      MatchOptional(':', colon, p[3..], sp2 + s4);
      assert [Optional(':')] + p[3..] == p[2..];
      MatchAnySpace(sp1, p[2..], s2);
      assert [AnySpace] + p[2..] == p[1..];
    }
    MatchLiteral("system", p[1..], sp1 + s2);
    assert [Literal("system")] + p[1..] == p;
    assert Search(DangerousPatterns[1], "system" + (sp1 + s2));
  }

  /**
   * The third pattern matches "translate", whitespace, "the", whitespace and
   * "above", whatever follows; the blocklist refuses that text.
   */
  lemma {:induction false} TranslateAboveMatches(sp1: string, sp2: string, tail: string)
    requires sp1 != [] && AllSpace(sp1) && sp2 != [] && AllSpace(sp2)
    ensures var x := "translate" + (sp1 + ("the" + (sp2 + ("above" + tail))));
      MatchesPrefix(TranslateAbove, x) && Blocked(x)
  {
    var p := TranslateAbove;
    var s3 := "the" + (sp2 + ("above" + tail));
    assert MatchesPrefix(p[2..], s3) by {
      assert MatchesPrefix(p[5..], tail);
      MatchLiteral("above", p[5..], tail);
      assert [Literal("above")] + p[5..] == p[4..];
      MatchSomeSpace(sp2, p[4..], "above" + tail);
      assert [SomeSpace] + p[4..] == p[3..];
      MatchLiteral("the", p[3..], sp2 + ("above" + tail));
      assert [Literal("the")] + p[3..] == p[2..];
    }
    MatchSomeSpace(sp1, p[2..], s3);
    assert [SomeSpace] + p[2..] == p[1..];
    MatchLiteral("translate", p[1..], sp1 + s3);
    assert [Literal("translate")] + p[1..] == p;
    assert Search(DangerousPatterns[2], "translate" + (sp1 + s3));
  }

  /**
   * The fourth pattern matches "forget", whitespace and any of its three
   * alternatives, whatever follows; the blocklist refuses that text.
   */
  lemma {:induction false} ForgetContextMatches(k: nat, sp: string, tail: string)
    requires k < 3 && sp != [] && AllSpace(sp)
    ensures var x := "forget" + (sp + (["everything", "all", "previous"][k] + tail));
      MatchesPrefix(ForgetContext, x) && Blocked(x)
  {
    var p := ForgetContext;
    var s2 := ["everything", "all", "previous"][k] + tail;
    assert MatchesPrefix(p[3..], tail);
    MatchOneOf(["everything", "all", "previous"], k, p[3..], tail);
    assert [OneOf(["everything", "all", "previous"])] + p[3..] == p[2..];
    MatchSomeSpace(sp, p[2..], s2);
    assert [SomeSpace] + p[2..] == p[1..];
    MatchLiteral("forget", p[1..], sp + s2);
    assert [Literal("forget")] + p[1..] == p;
    assert Search(DangerousPatterns[3], "forget" + (sp + s2));
  }

  /**
   * The fifth pattern matches "<", a possibly empty run of whitespace and
   * "script", whatever follows; the blocklist refuses that text.
   */
  lemma {:induction false} ScriptTagMatches(sp: string, tail: string)
    requires AllSpace(sp)
    ensures var x := "<" + (sp + ("script" + tail));
      MatchesPrefix(ScriptTag, x) && Blocked(x)
  {
    var p := ScriptTag;
    assert MatchesPrefix(p[3..], tail);
    MatchLiteral("script", p[3..], tail);
    assert [Literal("script")] + p[3..] == p[2..];
    MatchAnySpace(sp, p[2..], "script" + tail);
    assert [AnySpace] + p[2..] == p[1..];
    MatchLiteral("<", p[1..], sp + ("script" + tail));
    assert [Literal("<")] + p[1..] == p;
    assert Search(DangerousPatterns[4], "<" + (sp + ("script" + tail)));
  }

  /**
   * The sixth pattern matches "DROP", whitespace and "TABLE", whatever
   * follows; the blocklist refuses that text.
   */
  lemma {:induction false} DropTableMatches(sp: string, tail: string)
    requires sp != [] && AllSpace(sp)
    ensures var x := "DROP" + (sp + ("TABLE" + tail));
      MatchesPrefix(DropTable, x) && Blocked(x)
  {
    var p := DropTable;
    assert MatchesPrefix(p[3..], tail);
    MatchLiteral("TABLE", p[3..], tail);
    assert [Literal("TABLE")] + p[3..] == p[2..];
    MatchSomeSpace(sp, p[2..], "TABLE" + tail);
    assert [SomeSpace] + p[2..] == p[1..];
    MatchLiteral("DROP", p[1..], sp + ("TABLE" + tail));
    assert [Literal("DROP")] + p[1..] == p;
    assert Search(DangerousPatterns[5], "DROP" + (sp + ("TABLE" + tail)));
  }

  /** A match of a blocked pattern, in any letter case, anywhere inside the stripped text makes `sanitize_input` refuse. */
  lemma {:induction false} RejectsMatchIgnoringCase(s: string, k: nat, before: string, x: string, after: string)
    requires k < |DangerousPatterns|
    requires SameIgnoringCase(Strip(s), before + x + after)
    requires Search(DangerousPatterns[k], x)
    ensures Sanitize(JString(s)) == None
  {
    SearchInContext(DangerousPatterns[k], before, x, after);
    SearchIgnoresCase(DangerousPatterns[k], before + x + after, Strip(s));
  }

  /**
   * A stripped text that contains "ignore", whitespace, "previous", "above"
   * or "all", whitespace and "instruction" anywhere, in any letter case, is
   * refused.
   */
  lemma {:induction false} IgnoreInstructionsRefused(s: string, before: string, k: nat, sp1: string, sp2: string, tail: string)
    requires k < 3 && sp1 != [] && AllSpace(sp1) && sp2 != [] && AllSpace(sp2)
    requires SameIgnoringCase(Strip(s), before + IgnorePhrase(k, sp1, sp2, tail))
    ensures Sanitize(JString(s)) == None
  {
    var x := IgnorePhrase(k, sp1, sp2, tail);
    assert Search(DangerousPatterns[0], x) by {
      IgnoreInstructionsMatches(k, sp1, sp2, tail);
    }
    assert before + x + [] == before + x;
    RejectsMatchIgnoringCase(s, 0, before, x, []);
  }
}
