/** The two e-mail patterns of the system. The intake route tests the anchored
    `^[^\s@]+@[^\s@]+\.[^\s@]+$`; both contact pages test the unanchored
    `\S+@\S+\.\S+`, which only has to match somewhere inside the text. Each
    pattern is written as what a match means: some way to cut the text into
    the pattern's pieces. */
module EmailPatterns {
  import opened JsText

  /** A character of the class `[^\s@]`. */
  predicate Plain(c: char) {
    !IsSpace(c) && c != '@'
  }

  /** A non-empty run of `[^\s@]`, what `[^\s@]+` matches. */
  predicate PlainRun(s: string) {
    |s| >= 1 && forall i :: 0 <= i < |s| ==> Plain(s[i])
  }

  /** A non-empty run of `\S`, what `\S+` matches. */
  predicate NonSpaceRun(s: string) {
    |s| >= 1 && NoSpace(s)
  }

  /** `/^[^\s@]+@[^\s@]+\.[^\s@]+$/.test(s)`: the whole text splits at an `@`
      (index `a`) and a later `.` (index `d`) into three runs of `[^\s@]`. */
  predicate ServerEmailRegex(s: string) {
    exists a, d | 0 <= a < d < |s| :: ServerSplit(s, a, d)
  }

  /** The cut of the anchored pattern at `@` index `a` and `.` index `d`. */
  predicate ServerSplit(s: string, a: int, d: int) {
    0 <= a < d < |s| && s[a] == '@' && s[d] == '.'
    && PlainRun(s[..a]) && PlainRun(s[a + 1..d]) && PlainRun(s[d + 1..])
  }

  /** `/\S+@\S+\.\S+/.test(s)`: some stretch `s[p..q]` of the text splits at
      an `@` and a later `.` into three runs of `\S`. */
  predicate ClientEmailRegex(s: string) {
    exists p, a, d, q | 0 <= p < a < d < q <= |s| :: ClientSplit(s, p, a, d, q)
  }

  /** The cut of the unanchored pattern: the match is `s[p..q]`, with its
      `@` at index `a` and its `.` at index `d`. */
  predicate ClientSplit(s: string, p: int, a: int, d: int, q: int) {
    0 <= p < a < d < q <= |s| && s[a] == '@' && s[d] == '.'
    && NonSpaceRun(s[p..a]) && NonSpaceRun(s[a + 1..d]) && NonSpaceRun(s[d + 1..q])
  }

  /** The anchored pattern in words: no white space anywhere, exactly one
      `@` with text before it, and after the `@` some `.` with text on both
      of its sides. */
  predicate EmailShape(s: string) {
    && NoSpace(s)
    && '@' in s
    && var a := IndexOf(s, '@');
       && a > 0
       && '@' !in s[a + 1..]
       && exists d | a + 1 < d < |s| - 1 :: s[d] == '.'
  }

  /** The regular expression accepts exactly the texts of that shape. */
  lemma ServerEmailRegexIffShape(s: string)
    ensures ServerEmailRegex(s) <==> EmailShape(s)
  {
    if ServerEmailRegex(s) {
      var a: int, d: int :| ServerSplit(s, a, d);
      RegexGivesShape(s, a, d);
    }
    if EmailShape(s) {
      ShapeGivesRegex(s);
    }
  }

  lemma RegexGivesShape(s: string, a: int, d: int)
    requires ServerSplit(s, a, d)
    ensures EmailShape(s)
  {
    assert forall i :: 0 <= i < a ==> s[..a][i] == s[i];
    assert forall i :: a < i < d ==> s[a + 1..d][i - a - 1] == s[i];
    assert forall i :: d < i < |s| ==> s[d + 1..][i - d - 1] == s[i];
    assert forall i :: 0 <= i < |s| && i != a ==> Plain(s[i]);
    var k := IndexOf(s, '@');
    assert forall i :: 0 <= i < k ==> s[..k][i] == s[i];
    assert k == a;
    assert forall i :: a < i < |s| ==> s[a + 1..][i - a - 1] == s[i];
  }

  lemma ShapeGivesRegex(s: string)
    requires EmailShape(s)
    ensures ServerEmailRegex(s)
  {
    var a := IndexOf(s, '@');
    var d: int :| a + 1 < d < |s| - 1 && s[d] == '.';
    assert PlainRun(s[..a]) by {
      forall i | 0 <= i < a ensures Plain(s[..a][i]) {
        assert s[..a][i] == s[i];
      }
    }
    assert forall i :: a < i < |s| ==> s[a + 1..][i - a - 1] == s[i];
    assert forall i :: a < i < |s| ==> Plain(s[i]);
    assert forall i :: a < i < d ==> s[a + 1..d][i - a - 1] == s[i];
    assert forall i :: d < i < |s| ==> s[d + 1..][i - d - 1] == s[i];
    assert ServerSplit(s, a, d);
  }

  /** Every address the server accepts also passes the pages' check. */
  lemma ServerAcceptedPassesClient(s: string)
    requires ServerEmailRegex(s)
    ensures ClientEmailRegex(s)
  {
    var a: int, d: int :| ServerSplit(s, a, d);
    assert ServerSplit(s, a, d);
    assert s[0..a] == s[..a] && s[d + 1..|s|] == s[d + 1..];
    assert ClientSplit(s, 0, a, d, |s|);
  }

  /** The pages let through addresses the server then refuses: a second `@`
      after the first one ... */
  lemma ClientAcceptsSecondAt()
    ensures ClientEmailRegex("a@@b.c") && !ServerEmailRegex("a@@b.c")
  {
    var s := "a@@b.c";
    assert s[0..1] == "a" && s[2..4] == "@b" && s[5..6] == "c";
    assert ClientSplit(s, 0, 1, 4, 6);
    ServerEmailRegexIffShape(s);
    assert s[0] != '@' && s[1] == '@';
    assert IndexOf(s, '@') == 1;
    assert s[2..][0] == '@';
  }

  /** ... or a space before the address. */
  lemma ClientAcceptsLeadingWord()
    ensures ClientEmailRegex("x y@b.c") && !ServerEmailRegex("x y@b.c")
  {
    var s := "x y@b.c";
    assert s[2..3] == "y" && s[4..5] == "b" && s[6..7] == "c";
    assert ClientSplit(s, 2, 3, 5, 7);
    ServerEmailRegexIffShape(s);
    assert IsSpace(s[1]);
  }

  // ---- the pages' pattern as a left-to-right search ----

  /** From index `d` on, still inside the run after the `@` at `a`, there is
      a `.` with at least one character of the run before it (after the `@`)
      and a non-space character after it. */
  predicate DotFrom(s: string, a: nat, d: nat)
    decreases |s| - d
  {
    d < |s| && !IsSpace(s[d])
    && ((s[d] == '.' && a + 1 < d && d + 1 < |s| && !IsSpace(s[d + 1])) || DotFrom(s, a, d + 1))
  }

  /** Some `@` at index `a` or later has a non-space character before it
      and a matching `.` after it. */
  predicate AtFrom(s: string, a: nat)
    decreases |s| - a
  {
    a < |s|
    && ((s[a] == '@' && 0 < a && !IsSpace(s[a - 1]) && DotFrom(s, a, a + 1)) || AtFrom(s, a + 1))
  }

  /** `/\S+@\S+\.\S+/.test(s)` as the search a regular-expression engine
      makes: every match can be shrunk to one character before the `@` and
      one after the `.`. */
  predicate ClientMatch(s: string) {
    AtFrom(s, 0)
  }

  lemma {:induction false} DotFromGivesDot(s: string, a: nat, d: nat)
    requires a < d && DotFrom(s, a, d) && NoSpace(s[a + 1..d])
    ensures exists e | d <= e < |s| - 1 :: a + 1 < e && s[e] == '.' && NoSpace(s[a + 1..e]) && !IsSpace(s[e + 1])
    decreases |s| - d
  {
    if s[d] == '.' && a + 1 < d && d + 1 < |s| && !IsSpace(s[d + 1]) {
      assert d <= d < |s| - 1;
    } else {
      assert NoSpace(s[a + 1..d + 1]) by {
        assert s[a + 1..d + 1] == s[a + 1..d] + [s[d]];
      }
      DotFromGivesDot(s, a, d + 1);
    }
  }

  lemma {:induction false} DotFromOfRun(s: string, a: nat, d: nat, e: nat)
    requires a < d <= e && a + 1 < e && e + 1 < |s| && s[e] == '.' && !IsSpace(s[e + 1])
    requires forall i :: d <= i <= e ==> !IsSpace(s[i])
    ensures DotFrom(s, a, d)
    decreases e - d
  {
    if d < e {
      DotFromOfRun(s, a, d + 1, e);
    }
  }

  lemma {:induction false} AtFromOf(s: string, b: nat, a: nat)
    requires b <= a < |s| && s[a] == '@' && 0 < a && !IsSpace(s[a - 1]) && DotFrom(s, a, a + 1)
    ensures AtFrom(s, b)
    decreases a - b
  {
    if b < a {
      AtFromOf(s, b + 1, a);
    }
  }

  lemma {:induction false} AtFromGivesAt(s: string, b: nat)
    requires AtFrom(s, b)
    ensures exists a | b <= a < |s| :: s[a] == '@' && 0 < a && !IsSpace(s[a - 1]) && DotFrom(s, a, a + 1)
    decreases |s| - b
  {
    if !(s[b] == '@' && 0 < b && !IsSpace(s[b - 1]) && DotFrom(s, b, b + 1)) {
      AtFromGivesAt(s, b + 1);
    }
  }

  /** The search finds a match exactly when the pattern has one. */
  lemma ClientMatchIffRegex(s: string)
    ensures ClientMatch(s) <==> ClientEmailRegex(s)
  {
    if ClientMatch(s) {
      SearchGivesMatch(s);
    }
    if ClientEmailRegex(s) {
      var p: int, a: int, d: int, q: int :| ClientSplit(s, p, a, d, q);
      MatchGivesSearch(s, p, a, d, q);
    }
  }

  lemma SearchGivesMatch(s: string)
    requires ClientMatch(s)
    ensures ClientEmailRegex(s)
  {
    AtFromGivesAt(s, 0);
    var a: nat :| a < |s| && s[a] == '@' && 0 < a && !IsSpace(s[a - 1]) && DotFrom(s, a, a + 1);
    assert NoSpace(s[a + 1..a + 1]);
    DotFromGivesDot(s, a, a + 1);
    var e: nat :| a + 1 < e < |s| - 1 && s[e] == '.' && NoSpace(s[a + 1..e]) && !IsSpace(s[e + 1]);
    assert s[a - 1..a] == [s[a - 1]] && s[e + 1..e + 2] == [s[e + 1]];
    assert ClientSplit(s, a - 1, a, e, e + 2);
  }

  lemma MatchGivesSearch(s: string, p: int, a: int, d: int, q: int)
    requires ClientSplit(s, p, a, d, q)
    ensures ClientMatch(s)
  {
    assert s[p..a][a - 1 - p] == s[a - 1];
    assert s[d + 1..q][0] == s[d + 1];
    forall i | a + 1 <= i <= d
      ensures !IsSpace(s[i])
    {
      if i < d {
        assert s[a + 1..d][i - a - 1] == s[i];
      }
    }
    DotFromOfRun(s, a, a + 1, d);
    AtFromOf(s, 0, a);
  }
}
