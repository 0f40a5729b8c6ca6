/** Secret redaction and head-and-tail truncation of what the runner sends to the hub. */
module Redaction {
  import opened Wrappers
  import opened Text

  // ---------------------------------------------------------------------------
  // Replacing one pattern
  // ---------------------------------------------------------------------------

  const STARS := "***"

  /** `s.replaceAll(p, "***")`: leftmost matches, not overlapping. */
  function ReplaceAll(s: string, p: string): string
    requires p != ""
    decreases |s|
  {
    var i := IndexOf(s, p);
    if i.None? then s else s[..i.value] + STARS + ReplaceAll(s[i.value + |p|..], p)
  }

  /** Patterns that stars put in by a replacement can never help to spell. */
  ghost predicate Robust(p: string) {
    p != "" && p[0] != '*' && p[|p| - 1] != '*' && !Contains(p, STARS)
  }

  lemma OccursIn(s: string, p: string, i: int, j: int, k: int)
    requires 0 <= i <= k <= |s|
    requires OccursAt(s[i..k], p, j)
    ensures OccursAt(s, p, i + j)
  {
    forall m | 0 <= m < |p| ensures s[i + j + m] == p[m] {
      assert s[i..k][j + m] == p[m];
    }
  }

  lemma OccurrenceIn(s: string, p: string, i: int, k: int)
    requires 0 <= i <= k <= |s|
    ensures Contains(s[i..k], p) ==> Contains(s, p)
  {
    if j :| OccursAt(s[i..k], p, j) { OccursIn(s, p, i, j, k); }
  }

  lemma StarsAt(s: string, i: int)
    ensures OccursAt(s, STARS, i) <==> 0 <= i && i + 3 <= |s| && s[i] == s[i + 1] == s[i + 2] == '*'
  {
    assert STARS[0] == STARS[1] == STARS[2] == '*';
  }

  /** So every pattern without stars is robust. */
  lemma NoStarIsRobust(p: string)
    requires p != "" && '*' !in p
    ensures Robust(p)
  {
    forall i ensures !OccursAt(p, STARS, i) { StarsAt(p, i); }
  }

  /** An occurrence of a robust pattern cannot touch the stars between `a` and `b`. */
  lemma BesideTheStars(a: string, b: string, p: string, j: int)
    requires Robust(p) && OccursAt(a + STARS + b, p, j)
    ensures OccursAt(a, p, j) || OccursAt(b, p, j - |a| - 3)
  {
    var s := a + STARS + b;
    var i, n := |a|, |p|;
    assert s[i] == s[i + 1] == s[i + 2] == '*';
    assert p[0] == s[j] && p[n - 1] == s[j + n - 1];
    if j < i && i + 3 < j + n {
      assert p[i - j] == s[i] && p[i - j + 1] == s[i + 1] && p[i - j + 2] == s[i + 2];
      StarsAt(p, i - j);
    }
  }

  lemma EitherSide(a: string, b: string, p: string)
    requires Robust(p) && Contains(a + STARS + b, p)
    ensures Contains(a, p) || Contains(b, p)
  {
    hide Robust;
    var j :| OccursAt(a + STARS + b, p, j);
    BesideTheStars(a, b, p, j);
  }

  /** What a replacement does first, if anything. */
  lemma Replaced(s: string, q: string) returns (i: Option<nat>)
    requires q != ""
    ensures i.None? ==> ReplaceAll(s, q) == s
    ensures i.Some? ==>
              i.value + |q| <= |s| &&
              ReplaceAll(s, q) == s[..i.value] + STARS + ReplaceAll(s[i.value + |q|..], q)
  {
    hide OccursAt, IndexOf;
    i := IndexOf(s, q);
  }

  lemma Parts(s: string, i: nat, k: nat, p: string)
    requires i <= k <= |s| && (Contains(s[..i], p) || Contains(s[k..], p))
    ensures Contains(s, p)
  {
    assert s[..i] == s[0..i] && s[k..] == s[k..|s|];
    OccurrenceIn(s, p, 0, i);
    OccurrenceIn(s, p, k, |s|);
  }

  /** Replacing `q` makes no new occurrence of a robust pattern. */
  lemma {:induction false} ReplacingAddsNothing(s: string, q: string, p: string)
    requires q != "" && Robust(p) && Contains(ReplaceAll(s, q), p)
    ensures Contains(s, p)
    decreases |s|
  {
    hide ReplaceAll, Robust, Contains;
    var i := Replaced(s, q);
    if i.Some? {
      var a, rest := s[..i.value], s[i.value + |q|..];
      EitherSide(a, ReplaceAll(rest, q), p);
      if Contains(ReplaceAll(rest, q), p) {
        ReplacingAddsNothing(rest, q, p);
      }
      Parts(s, i.value, i.value + |q|, p);
    }
  }

  /** Replacing a robust pattern removes it. */
  lemma {:induction false} ReplacingRemoves(s: string, p: string)
    requires Robust(p)
    ensures !Contains(ReplaceAll(s, p), p)
    decreases |s|
  {
    var i := IndexOf(s, p);
    if i.Some? {
      var a, rest := s[..i.value], s[i.value + |p|..];
      ReplacingRemoves(rest, p);
      forall j | OccursAt(ReplaceAll(s, p), p, j) ensures false {
        BesideTheStars(a, ReplaceAll(rest, p), p, j);
        if OccursAt(a, p, j) { OccursIn(s, p, 0, j, i.value); }
      }
    }
  }

  ghost predicate AlwaysRemoved(p: string)
    requires p != ""
  {
    forall s :: Removed(s, p)
  }

  ghost predicate Removed(s: string, p: string)
    requires p != ""
  {
    !Contains(ReplaceAll(s, p), p)
  }

  /** Exactly which patterns a replacement always removes. */
  lemma AlwaysRemovedIffRobust(p: string)
    requires p != ""
    ensures AlwaysRemoved(p) <==> Robust(p)
  {
    if Robust(p) {
      forall s ensures Removed(s, p) { ReplacingRemoves(s, p); }
    } else {
      var s := Survivor(p);
      assert !Removed(s, p);
    }
  }

  /** A text in which replacing a pattern that is not robust leaves that pattern behind, and no more
      other than stars than the pattern has itself. */
  lemma Survivor(p: string) returns (s: string)
    requires p != "" && !Robust(p)
    ensures Contains(ReplaceAll(s, p), p)
    ensures Letters(ReplaceAll(s, p)) == Letters(p)
  {
    if p[0] == '*' {
      s := LeadingStar(p);
    } else if p[|p| - 1] == '*' {
      s := TrailingStar(p);
    } else {
      s := InnerStars(p);
    }
  }

  /** The pieces, with `glue` between each two. */
  function Glued(pieces: seq<string>, glue: string): string {
    if pieces == [] then ""
    else if |pieces| == 1 then pieces[0]
    else pieces[0] + glue + Glued(pieces[1..], glue)
  }

  lemma GluedCons(a: string, more: seq<string>, glue: string)
    requires more != []
    ensures Glued([a] + more, glue) == a + glue + Glued(more, glue)
  {
    assert ([a] + more)[1..] == more;
  }

  /** Each piece but the last ends where the pattern first occurs in what is left; the last has none. */
  predicate TakenInOrder(pieces: seq<string>, p: string) {
    if |pieces| <= 1 then |pieces| == 1 && IndexOf(pieces[0], p).None?
    else IndexOf(Glued(pieces, p), p) == Some(|pieces[0]|) && TakenInOrder(pieces[1..], p)
  }

  lemma ReplacedAt(s: string, p: string) returns (i: Option<nat>)
    requires p != ""
    ensures i == IndexOf(s, p)
    ensures i.None? ==> ReplaceAll(s, p) == s
    ensures i.Some? ==>
              i.value + |p| <= |s| && s == s[..i.value] + p + s[i.value + |p|..] &&
              ReplaceAll(s, p) == s[..i.value] + STARS + ReplaceAll(s[i.value + |p|..], p)
  {
    hide OccursAt, IndexOf;
    i := IndexOf(s, p);
    if i.Some? { TakenApart(s, p, i.value); }
  }

  /** A replacement takes the text apart at its occurrences, each the first in what is left, and
      puts the very same pieces together again with stars between them. */
  lemma {:induction false} ReplacesInPlace(s: string, p: string) returns (pieces: seq<string>)
    requires p != ""
    ensures TakenInOrder(pieces, p) && s == Glued(pieces, p) && ReplaceAll(s, p) == Glued(pieces, STARS)
    decreases |s|
  {
    var i := ReplacedAt(s, p);
    hide IndexOf, OccursAt, ReplaceAll;
    if i.None? {
      pieces := [s];
    } else {
      var a, rest := s[..i.value], s[i.value + |p|..];
      var more := ReplacesInPlace(rest, p);
      pieces := [a] + more;
      GluedCons(a, more, p);
      GluedCons(a, more, STARS);
      assert pieces[1..] == more;
    }
  }

  lemma TakenApart(s: string, p: string, i: nat)
    requires OccursAt(s, p, i)
    ensures s == s[..i] + p + s[i + |p|..]
  {
    assert forall k :: 0 <= k < |p| ==> s[i + k] == p[k];
  }

  /** How many characters are not stars. */
  function Letters(s: string): nat {
    if s == "" then 0 else (if s[0] == '*' then 0 else 1) + Letters(s[1..])
  }

  lemma {:induction false} LettersAdd(a: string, b: string)
    ensures Letters(a + b) == Letters(a) + Letters(b)
  {
    if a == "" {
      assert a + b == b;
    } else {
      assert (a + b)[1..] == a[1..] + b;
      LettersAdd(a[1..], b);
    }
  }

  lemma LettersOfStars()
    ensures Letters(STARS) == 0 && Letters("*") == 0
  {
    assert STARS[1..] == "**" && "**"[1..] == "*" && "*"[1..] == "";
  }

  lemma NoMoreLetters(s: string, p: string)
    requires Contains(s, p)
    ensures Letters(p) <= Letters(s)
  {
    var i :| OccursAt(s, p, i);
    var a, b := s[..i], s[i + |p|..];
    assert s == a + (p + b) by {
      assert forall k :: 0 <= k < |p| ==> s[i + k] == p[k];
    }
    LettersAdd(a, p + b);
    LettersAdd(p, b);
  }

  lemma TooShort(s: string, p: string)
    requires |s| < |p|
    ensures ReplaceAll(s, p) == s
  {
  }

  /** One match, and a rest too short for another. */
  lemma OneMatch(s: string, p: string, i: nat)
    requires p != "" && OccursAt(s, p, i) && |s| - i < 2 * |p|
    requires forall j :: 0 <= j < i ==> !OccursAt(s, p, j)
    ensures ReplaceAll(s, p) == s[..i] + STARS + s[i + |p|..]
  {
    assert IndexOf(s, p) == Some(i);
    TooShort(s[i + |p|..], p);
  }

  lemma LeadingStar(p: string) returns (s: string)
    requires p != "" && p[0] == '*'
    ensures Contains(ReplaceAll(s, p), p)
    ensures Letters(ReplaceAll(s, p)) == Letters(p)
  {
    s := p + p[1..];
    assert OccursAt(s, p, 0);
    OneMatch(s, p, 0);
    assert s[|p|..] == p[1..];
    assert s[..0] + STARS + p[1..] == STARS + p[1..];
    assert OccursAt(STARS + p[1..], p, 2);
    LettersOfStars();
    LettersAdd(STARS, p[1..]);
  }

  /** A window there would start with p[0] and end, one place into the second copy, with p's star. */
  lemma NotBefore(p: string, k: nat)
    requires p != "" && p[0] != '*' && p[|p| - 1] == '*' && k < |p| - 1
    ensures !OccursAt(p[..|p| - 1] + p, p, k)
  {
    var s, n := p[..|p| - 1] + p, |p| - 1;
    assert s[k] == p[k] && s[k + n] == p[k];
  }

  lemma TrailingMatch(p: string)
    requires p != "" && p[0] != '*' && p[|p| - 1] == '*'
    ensures var y := p[..|p| - 1]; ReplaceAll(y + p, p) == y + STARS
  {
    hide ReplaceAll, IndexOf;
    var n := |p| - 1;
    var y := p[..n];
    var s := y + p;
    assert OccursAt(s, p, n);
    forall k | 0 <= k < n ensures !OccursAt(s, p, k) { NotBefore(p, k); }
    OneMatch(s, p, n);
    assert s[..n] == y && s[n + |p|..] == "";
    assert y + STARS + "" == y + STARS;
  }

  lemma TrailingStar(p: string) returns (s: string)
    requires p != "" && p[0] != '*' && p[|p| - 1] == '*'
    ensures Contains(ReplaceAll(s, p), p)
    ensures Letters(ReplaceAll(s, p)) == Letters(p)
  {
    hide ReplaceAll, Letters;
    var y := p[..|p| - 1];
    s := y + p;
    TrailingMatch(p);
    assert p == y + "*";
    assert OccursAt(y + STARS, p, 0);
    LettersOfStars();
    LettersAdd(y, STARS);
    LettersAdd(y, "*");
  }

  lemma Reassembled(p: string, i: nat)
    requires OccursAt(p, STARS, i)
    ensures p[..i] + STARS + p[i + 3..] == p
  {
    StarsAt(p, i);
  }

  lemma Surrounded(p: string, i: nat)
    requires i + 3 <= |p|
    ensures var s := p[..i] + p + p[i + 3..];
            OccursAt(s, p, i) && s[..i] == p[..i] && s[i + |p|..] == p[i + 3..]
  {
  }

  lemma InnerStars(p: string) returns (s: string)
    requires p != "" && p[0] != '*' && p[|p| - 1] != '*' && Contains(p, STARS)
    ensures Contains(ReplaceAll(s, p), p)
    ensures Letters(ReplaceAll(s, p)) == Letters(p)
  {
    var i := IndexOf(p, STARS).value;
    s := p[..i] + p + p[i + 3..];
    Reassembled(p, i);
    Surrounded(p, i);
    forall k | 0 <= k < i ensures !OccursAt(s, p, k) { StarsComeLate(p, i, k); }
    OneMatch(s, p, i);
    assert OccursAt(p, p, 0);
  }

  /** In u + p + v the first three stars stand where p puts them, so p cannot start earlier. */
  lemma StarsComeLate(p: string, i: nat, k: nat)
    requires p != "" && p[0] != '*' && OccursAt(p, STARS, i) && k < i
    requires forall j :: 0 <= j < i ==> !OccursAt(p, STARS, j)
    ensures !OccursAt(p[..i] + p + p[i + 3..], p, k)
  {
    var s := p[..i] + p + p[i + 3..];
    StarsAt(p, i);
    StarsAt(p, k);
    assert s[i + k] == p[k] && s[i + k + 1] == p[k + 1] && s[i + k + 2] == p[k + 2];
  }

  // ---------------------------------------------------------------------------
  // Replacing a list of patterns
  // ---------------------------------------------------------------------------

  function ReplaceEach(s: string, patterns: seq<string>): string
    requires "" !in patterns
  {
    if patterns == [] then s
    else
      var n := |patterns| - 1;
      ReplaceAll(ReplaceEach(s, patterns[..n]), patterns[n])
  }

  /** Whatever the patterns, however many: robust ones never come back. */
  lemma {:induction false} NoneSurvives(s: string, patterns: seq<string>, p: string)
    requires "" !in patterns && p in patterns && Robust(p)
    ensures !Contains(ReplaceEach(s, patterns), p)
  {
    var n := |patterns| - 1;
    var q := patterns[n];
    if p == q {
      ReplacingRemoves(ReplaceEach(s, patterns[..n]), p);
    } else {
      NoneSurvives(s, patterns[..n], p);
      if Contains(ReplaceEach(s, patterns), p) {
        ReplacingAddsNothing(ReplaceEach(s, patterns[..n]), q, p);
      }
    }
  }

  // ---------------------------------------------------------------------------
  // The JSON form of a secret
  // ---------------------------------------------------------------------------

  function HexDigit(n: nat): char
    requires n < 16
  {
    if n < 10 then '0' + n as char else 'a' + (n - 10) as char
  }

  /** Section 25.5.2.3 of ECMA-262 (QuoteJSONString), for one character. */
  function EscapeChar(c: char): (e: string)
    ensures e != "" && ((e[0] == '*' || e[|e| - 1] == '*' || '*' in e) ==> c == '*' && e == "*")
  {
    if c == '\"' then "\\\""
    else if c == '\\' then "\\\\"
    else if c as int == 8 then "\\b"
    else if c as int == 9 then "\\t"
    else if c as int == 10 then "\\n"
    else if c as int == 12 then "\\f"
    else if c as int == 13 then "\\r"
    else if c as int < 32 then "\\u00" + [HexDigit(c as int / 16), HexDigit(c as int % 16)]
    else [c]
  }

  /** `JSON.stringify(s).slice(1, -1)` */
  function Escape(s: string): string {
    if s == "" then "" else EscapeChar(s[0]) + Escape(s[1..])
  }

  lemma {:induction false} EscapeEnds(s: string)
    requires s != ""
    ensures Escape(s) != ""
    ensures Escape(s)[0] == '*' ==> s[0] == '*'
    ensures Escape(s)[|Escape(s)| - 1] == '*' ==> s[|s| - 1] == '*'
  {
    if |s| == 1 {
      assert Escape(s) == EscapeChar(s[0]);
    } else {
      EscapeEnds(s[1..]);
    }
  }

  /** Escaping does not bring stars together. */
  lemma {:induction false} EscapeStars(s: string, i: nat)
    requires OccursAt(Escape(s), STARS, i)
    ensures Contains(s, STARS)
  {
    var e, rest := EscapeChar(s[0]), Escape(s[1..]);
    StarsAt(Escape(s), i);
    if i >= |e| {
      StarsAt(rest, i - |e|);
      EscapeStars(s[1..], i - |e|);
      var j :| OccursAt(s[1..], STARS, j);
      assert s[1..] == s[1..|s|];
      OccursIn(s, STARS, 1, j, |s|);
    } else {
      assert e[i] == '*';
      LeadingStars(s, 3);
      StarsAt(s, 0);
    }
  }

  lemma {:induction false} LeadingStars(s: string, n: nat)
    requires n <= |Escape(s)| && forall k :: 0 <= k < n ==> Escape(s)[k] == '*'
    ensures n <= |s| && forall k :: 0 <= k < n ==> s[k] == '*'
  {
    if n > 0 {
      var rest := Escape(s[1..]);
      assert EscapeChar(s[0])[0] == Escape(s)[0];
      forall k | 0 <= k < n - 1 ensures rest[k] == '*' { assert rest[k] == Escape(s)[k + 1]; }
      LeadingStars(s[1..], n - 1);
      forall k | 0 < k < n ensures s[k] == '*' { assert s[1..][k - 1] == s[k]; }
    }
  }

  lemma {:induction false} EscapeAppend(a: string, b: string)
    ensures Escape(a + b) == Escape(a) + Escape(b)
  {
    if a == "" {
      assert a + b == b;
    } else {
      assert (a + b)[1..] == a[1..] + b;
      EscapeAppend(a[1..], b);
    }
  }

  /** The escaped form is what a secret looks like in any JSON string that holds it. */
  lemma EscapedWithin(text: string, secret: string)
    requires Contains(text, secret)
    ensures Contains(Escape(text), Escape(secret))
  {
    var i :| OccursAt(text, secret, i);
    var a, b := text[..i], text[i + |secret|..];
    TakenApart(text, secret, i);
    EscapeAppend(a + secret, b);
    EscapeAppend(a, secret);
    InMiddle(Escape(a), Escape(secret), Escape(b));
  }

  function HexValue(c: char): Option<nat> {
    if '0' <= c <= '9' then Some(c as int - 48)
    else if 'a' <= c <= 'f' then Some(c as int - 87)
    else None
  }

  /** One character of a JSON string and how much of the text it takes (section 7 of RFC 8259). */
  function ReadChar(s: string): Option<(char, nat)> {
    if s == "" || s[0] == '\"' || s[0] as int < 32 then None
    else if s[0] != '\\' then Some((s[0], 1))
    else if |s| < 2 then None
    else if s[1] == '\"' then Some(('\"', 2))
    else if s[1] == '\\' then Some(('\\', 2))
    else if s[1] == 'b' then Some((8 as char, 2))
    else if s[1] == 't' then Some((9 as char, 2))
    else if s[1] == 'n' then Some((10 as char, 2))
    else if s[1] == 'f' then Some((12 as char, 2))
    else if s[1] == 'r' then Some((13 as char, 2))
    else if s[1] == 'u' && |s| >= 6 && s[2] == s[3] == '0' && HexValue(s[4]).Some? && HexValue(s[5]).Some? then
      Some(((HexValue(s[4]).value * 16 + HexValue(s[5]).value) as char, 6))
    else None
  }

  /** The contents of a JSON string; None when they are not well formed. */
  function Unescape(s: string): Option<string>
    decreases |s|
  {
    if s == "" then Some("")
    else
      var c := ReadChar(s);
      if c.None? || |s| < c.value.1 || c.value.1 == 0 then None
      else
        var rest := Unescape(s[c.value.1..]);
        if rest.None? then None else Some([c.value.0] + rest.value)
  }

  lemma ReadsEscaped(c: char, rest: string)
    ensures ReadChar(EscapeChar(c) + rest) == Some((c, |EscapeChar(c)|))
    ensures (EscapeChar(c) + rest)[|EscapeChar(c)|..] == rest
  {
    var e := EscapeChar(c);
    assert forall i :: 0 <= i < |e| ==> (e + rest)[i] == e[i];
  }

  /** Reading the escaped form as the contents of a JSON string gives the value back. */
  lemma {:induction false} EscapeReadsBack(s: string)
    ensures Unescape(Escape(s)) == Some(s)
  {
    if s != "" {
      EscapeReadsBack(s[1..]);
      ReadsEscaped(s[0], Escape(s[1..]));
      assert s == [s[0]] + s[1..];
    }
  }

  lemma {:induction false} EscapeHasNoNewline(s: string)
    ensures '\n' !in Escape(s)
  {
    if s != "" { EscapeHasNoNewline(s[1..]); }
  }

  lemma EscapeKeepsRobust(s: string)
    requires Robust(s)
    ensures Robust(Escape(s))
  {
    EscapeEnds(s);
    if Contains(Escape(s), STARS) {
      var i :| OccursAt(Escape(s), STARS, i);
      EscapeStars(s, i);
    }
  }

  // ---------------------------------------------------------------------------
  // The secrets of an environment
  // ---------------------------------------------------------------------------

  const DENYLIST: set<string> := {
    "AGENT_NAME", "PI_PROVIDER", "OLLAMA_CLOUD_MODEL", "AGENT_PERSONA_PATH", "HUB_URL", "HUB_ENABLED",
    "OLLAMA_CLOUD_MAX_TURNS", "AGENT_TOOLS", "MCP_SERVERS", "PATH", "HOME", "HOSTNAME", "PWD",
    "NAK_DELAY_MS", "TOOL_RESULT_MAX_CHARS", "EVENT_DATA_MAX_CHARS", "POST_TIMEOUT_MS",
    "TURN_TIMEOUT_MS", "TURN_SETTLE_TIMEOUT_MS", "NODE_ENV", "SHLVL", "TERM", "LANG", "LC_ALL"}
  const DENYLIST_PREFIX := "AINSEL_EVENT_"
  const MIN_SECRET_LENGTH := 8

  datatype Variable = Variable(key: string, value: Option<string>)

  predicate Sensitive(v: Variable) {
    && v.value.Some? && |v.value.value| >= MIN_SECRET_LENGTH
    && v.key !in DENYLIST
    && !(DENYLIST_PREFIX <= v.key)
  }

  /** A value of eight characters or more counts, unless its variable is one of these by name or is
      set anew for every task. */
  lemma SensitiveExactly(v: Variable)
    ensures Sensitive(v) <==>
            && v.value.Some? && |v.value.value| >= 8
            && !("AINSEL_EVENT_" <= v.key)
            && v.key !in {"AGENT_NAME", "AGENT_PERSONA_PATH", "AGENT_TOOLS", "EVENT_DATA_MAX_CHARS", "HOME", "HOSTNAME",
                          "HUB_ENABLED", "HUB_URL", "LANG", "LC_ALL", "MCP_SERVERS", "NAK_DELAY_MS", "NODE_ENV",
                          "OLLAMA_CLOUD_MAX_TURNS", "OLLAMA_CLOUD_MODEL", "PATH", "PI_PROVIDER", "POST_TIMEOUT_MS",
                          "PWD", "SHLVL", "TERM", "TOOL_RESULT_MAX_CHARS", "TURN_SETTLE_TIMEOUT_MS", "TURN_TIMEOUT_MS"}
  {
  }

  /** The values to redact, each at its first place. */
  function Secrets(env: seq<Variable>): (secrets: seq<string>)
    ensures "" !in secrets
  {
    if env == [] then []
    else
      var n := |env| - 1;
      var before := Secrets(env[..n]);
      if Sensitive(env[n]) && env[n].value.value !in before then before + [env[n].value.value] else before
  }

  lemma {:induction false} SecretsComplete(env: seq<Variable>, v: Variable)
    requires v in env && Sensitive(v)
    ensures v.value.value in Secrets(env)
  {
    var n := |env| - 1;
    assert env == env[..n] + [env[n]];
    if v != env[n] { SecretsComplete(env[..n], v); }
  }

  function Patterns(secrets: seq<string>): (ps: seq<string>)
    requires "" !in secrets
    ensures "" !in ps
  {
    if secrets == [] then []
    else
      var n := |secrets| - 1;
      var s := secrets[n];
      EscapeEnds(s);
      Patterns(secrets[..n]) + [s] + (if Escape(s) != s then [Escape(s)] else [])
  }

  lemma {:induction false} PatternsComplete(secrets: seq<string>, s: string)
    requires "" !in secrets && s in secrets
    ensures s in Patterns(secrets) && Escape(s) in Patterns(secrets)
  {
    var n := |secrets| - 1;
    assert secrets == secrets[..n] + [secrets[n]];
    if s != secrets[n] { PatternsComplete(secrets[..n], s); }
  }

  function Redacted(input: string, secrets: seq<string>): string
    requires "" !in secrets
  {
    ReplaceEach(input, Patterns(secrets))
  }

  /** No secret value leaves, neither raw nor as it looks inside a JSON string. */
  lemma NoSecretLeaves(env: seq<Variable>, input: string, v: Variable)
    requires v in env && Sensitive(v) && Robust(v.value.value)
    ensures !Contains(Redacted(input, Secrets(env)), v.value.value)
    ensures !Contains(Redacted(input, Secrets(env)), Escape(v.value.value))
  {
    var secrets, s := Secrets(env), v.value.value;
    SecretsComplete(env, v);
    PatternsComplete(secrets, s);
    EscapeKeepsRobust(s);
    NoneSurvives(input, Patterns(secrets), s);
    NoneSurvives(input, Patterns(secrets), Escape(s));
  }

  lemma {:induction false} EscapeAddsLetters(s: string)
    ensures Letters(Escape(s)) >= Letters(s)
    ensures Escape(s) != s ==> Letters(Escape(s)) > Letters(s)
  {
    if s != "" {
      EscapeAddsLetters(s[1..]);
      EscapedLetter(s[0]);
      LettersAdd(EscapeChar(s[0]), Escape(s[1..]));
      assert s == [s[0]] + s[1..];
    }
  }

  lemma EscapedLetter(c: char)
    ensures if EscapeChar(c) == [c] then Letters(EscapeChar(c)) == (if c == '*' then 0 else 1)
            else c != '*' && Letters(EscapeChar(c)) >= 2
  {
    var e := EscapeChar(c);
    if e == [c] {
      assert e[1..] == "";
    } else {
      assert |e| >= 2 && '*' !in e;
      assert e[0] != '*' && e[1] != '*';
      assert e[1..][0] == e[1];
    }
  }

  /** With this secret alone: the survivor's pattern is left, and its escaped form has too many
      letters to match what is left. */
  lemma SurvivesRedaction(p: string) returns (input: string)
    requires p != "" && !Robust(p)
    ensures Contains(Redacted(input, [p]), p)
  {
    input := Survivor(p);
    var once := ReplaceAll(input, p);
    RedactedSnoc(input, [], p);
    assert [] + [p] == [p];
    NothingRedacted(input);
    if Escape(p) != p {
      EscapeAddsLetters(p);
      if Contains(once, Escape(p)) {
        NoMoreLetters(once, Escape(p));
      }
      assert IndexOf(once, Escape(p)).None?;
    }
  }

  lemma OnlySecret(v: Variable)
    requires Sensitive(v)
    ensures Secrets([v]) == [v.value.value]
  {
    assert [v][..0] == [];
  }

  ghost predicate Hidden(env: seq<Variable>, input: string, p: string) {
    !Contains(Redacted(input, Secrets(env)), p)
  }

  /** Exactly which secrets the whole redaction, with its list and both forms, always removes. */
  lemma RedactionCertainExactlyWhen(v: Variable)
    requires Sensitive(v)
    ensures (forall env, input :: v in env ==> Hidden(env, input, v.value.value)) <==> Robust(v.value.value)
  {
    var p := v.value.value;
    if Robust(p) {
      forall env, input | v in env ensures Hidden(env, input, p) {
        NoSecretLeaves(env, input, v);
      }
    } else {
      var input := SurvivesRedaction(p);
      OnlySecret(v);
      assert v in [v] && !Hidden([v], input, p);
    }
  }

  /** The list holds the values of the sensitive variables and nothing else, each once. */
  lemma {:induction false} SecretsExactly(env: seq<Variable>)
    ensures forall s :: s in Secrets(env) <==> IsSecret(env, s)
    ensures forall i, j :: 0 <= i < j < |Secrets(env)| ==> Secrets(env)[i] != Secrets(env)[j]
  {
    if env != [] {
      var n := |env| - 1;
      SecretsExactly(env[..n]);
      assert env == env[..n] + [env[n]];
      forall s ensures IsSecret(env, s) <==> IsSecret(env[..n], s) || IsSecret([env[n]], s) {
        IsSecretSnoc(env[..n], env[n], s);
      }
      assert forall s :: IsSecret([env[n]], s) <==> Sensitive(env[n]) && env[n].value.value == s by {
        assert env[n] in [env[n]];
      }
    }
  }

  ghost predicate IsSecret(env: seq<Variable>, s: string) {
    exists v :: v in env && Sensitive(v) && v.value.value == s
  }

  lemma IsSecretSnoc(env: seq<Variable>, v: Variable, s: string)
    ensures IsSecret(env + [v], s) <==> IsSecret(env, s) || IsSecret([v], s)
  {
    if IsSecret(env, s) {
      var u :| u in env && Sensitive(u) && u.value.value == s;
      assert u in env + [v];
    }
    if IsSecret([v], s) {
      assert v in env + [v];
    }
  }

  method BuildSecretList(env: seq<Variable>) returns (secrets: seq<string>)
    ensures secrets == Secrets(env)
    ensures forall s :: s in secrets <==> IsSecret(env, s)
    ensures forall i, j :: 0 <= i < j < |secrets| ==> secrets[i] != secrets[j]
  {
    SecretsExactly(env);
    secrets := [];
    for i := 0 to |env|
      invariant secrets == Secrets(env[..i])
    {
      var v := env[i];
      assert env[..i + 1][..i] == env[..i];
      if v.value.None? || |v.value.value| < MIN_SECRET_LENGTH { continue; }
      if v.key in DENYLIST { continue; }
      if DENYLIST_PREFIX <= v.key { continue; }
      if v.value.value !in secrets {
        secrets := secrets + [v.value.value];
      }
    }
    assert env[..|env|] == env;
  }

  lemma ReplaceEachSnoc(s: string, patterns: seq<string>, p: string)
    requires "" !in patterns && p != ""
    ensures ReplaceEach(s, patterns + [p]) == ReplaceAll(ReplaceEach(s, patterns), p)
  {
    assert (patterns + [p])[..|patterns|] == patterns;
  }

  /** One round of the loop below: the raw form, then the escaped form if it differs. */
  lemma RedactedSnoc(input: string, secrets: seq<string>, s: string)
    requires "" !in secrets && s != ""
    ensures Escape(s) != ""
    ensures Redacted(input, secrets + [s]) ==
            var once := ReplaceAll(Redacted(input, secrets), s);
            if Escape(s) != s then ReplaceAll(once, Escape(s)) else once
  {
    EscapeEnds(s);
    var ps := Patterns(secrets);
    assert (secrets + [s])[..|secrets|] == secrets;
    ReplaceEachSnoc(input, ps, s);
    if Escape(s) != s {
      ReplaceEachSnoc(input, ps + [s], Escape(s));
    } else {
      assert ps + [s] + [] == ps + [s];
    }
  }

  lemma NothingRedacted(input: string)
    ensures Redacted(input, []) == input
  {
  }

  class Redactor {
    var cachedSecrets: Option<seq<string>>

    constructor ()
      ensures cachedSecrets.None?
    {
      cachedSecrets := None;
    }

    ghost predicate Valid()
      reads this
    {
      cachedSecrets.Some? ==> "" !in cachedSecrets.value
    }

    /** The environment is read on the first call only. */
    method RedactSecrets(env: seq<Variable>, input: string) returns (out: string)
      requires Valid()
      modifies this
      ensures Valid()
      ensures cachedSecrets == Some(old(cachedSecrets).GetOr(Secrets(env)))
      ensures out == Redacted(input, cachedSecrets.value)
    {
      hide Redacted, ReplaceAll, Escape;
      if cachedSecrets.None? {
        var built := BuildSecretList(env);
        cachedSecrets := Some(built);
      }
      var secrets := cachedSecrets.value;
      out := input;
      NothingRedacted(input);
      for i := 0 to |secrets|
        invariant cachedSecrets == Some(secrets)
        invariant out == Redacted(input, secrets[..i])
      {
        var s := secrets[i];
        assert secrets[..i + 1] == secrets[..i] + [s];
        RedactedSnoc(input, secrets[..i], s);
        out := ReplaceAll(out, s);
        var escaped := Escape(s);
        if escaped != s {
          out := ReplaceAll(out, escaped);
        }
      }
      assert secrets[..|secrets|] == secrets;
    }
  }

  // ---------------------------------------------------------------------------
  // Truncation
  // ---------------------------------------------------------------------------

  function Marker(omitted: nat): string {
    "... [truncated " + Decimal(omitted) + " chars] ..."
  }

  function TruncateWithMarker(text: string, maxChars: nat): string {
    if |text| <= maxChars then text
    else
      var headLen := maxChars * 3 / 4;
      var tailLen := maxChars - headLen;
      var omitted := |text| - headLen - tailLen;
      text[..headLen] + "\n" + Marker(omitted) + "\n" + text[|text| - tailLen..]
  }

  /** The cut text keeps exactly `maxChars` characters, three quarters of them from the head, and
      says how many it left out. */
  lemma TruncationIsExact(text: string, maxChars: nat) returns (head: string, tail: string)
    requires |text| > maxChars
    ensures TruncateWithMarker(text, maxChars) == head + "\n" + Marker(|text| - maxChars) + "\n" + tail
    ensures Marker(|text| - maxChars) == "... [truncated " + Decimal(|text| - maxChars) + " chars] ..."
    ensures head <= text && |head| == maxChars * 3 / 4
    ensures |head| + |tail| == maxChars && tail == text[|text| - |tail|..]
  {
    head := text[..maxChars * 3 / 4];
    tail := text[|text| - (maxChars - |head|)..];
  }

  predicate EndsWith(s: string, x: string) {
    |x| <= |s| && s[|s| - |x|..] == x
  }

  /** The newline at `i` of the pattern can be one that the cut puts beside its marker. */
  predicate SeamAt(p: string, marker: string, i: nat) {
    && i < |p| && p[i] == '\n'
    && (p[i + 1..] <= marker || marker + "\n" <= p[i + 1..] || EndsWith(marker, p[..i]))
  }

  /** The marker, with its newlines and with some text around it, spells the pattern. */
  ghost predicate Spells(marker: string, p: string) {
    Contains(marker, p) || exists i :: SeamAt(p, marker, i)
  }

  ghost predicate CutSpells(p: string) {
    exists omitted: nat :: omitted >= 1 && Spells(Marker(omitted), p)
  }

  function Cut(head: string, marker: string, tail: string): string {
    head + "\n" + marker + "\n" + tail
  }

  lemma CutParts(head: string, marker: string, tail: string)
    ensures var s, n, k := Cut(head, marker, tail), |head|, |marker|;
            && |s| == n + k + 2 + |tail| && s[n] == '\n' && s[n + 1 + k] == '\n'
            && (forall i :: 0 <= i < n ==> s[i] == head[i])
            && (forall i :: n < i < n + 1 + k ==> s[i] == marker[i - n - 1])
            && (forall i :: n + k + 2 <= i < |s| ==> s[i] == tail[i - n - k - 2])
  {
  }

  /** A pattern in the cut text stands in one of the parts or reaches over one of the newlines. */
  lemma WhereInCut(head: string, marker: string, tail: string, p: string, j: nat)
    requires OccursAt(Cut(head, marker, tail), p, j)
    ensures Contains(head, p) || Contains(tail, p) || Spells(marker, p)
  {
    hide Cut;
    var s, n, k := Cut(head, marker, tail), |head|, |marker|;
    CutParts(head, marker, tail);
    assert forall i :: 0 <= i < |p| ==> s[j + i] == p[i];
    if j + |p| <= n {
      assert OccursAt(head, p, j);
    } else if n + k + 1 < j {
      assert OccursAt(tail, p, j - n - k - 2);
    } else if n < j && j + |p| <= n + k + 1 {
      assert OccursAt(marker, p, j - n - 1);
    } else if j <= n {
      OverFirst(s, marker, p, j, n);
    } else {
      OverSecond(s, marker, p, j, n);
    }
  }

  lemma OverFirst(s: string, marker: string, p: string, j: nat, n: nat)
    requires OccursAt(s, p, j) && j <= n < j + |p| && n + |marker| + 1 < |s|
    requires s[n] == '\n' && s[n + 1 + |marker|] == '\n'
    requires forall i :: n < i < n + 1 + |marker| ==> s[i] == marker[i - n - 1]
    ensures SeamAt(p, marker, n - j)
  {
    var i, k := n - j, |marker|;
    var y := p[i + 1..];
    assert p[i] == s[j + i];
    forall m | 0 <= m < |y| ensures y[m] == s[n + 1 + m] {
      assert p[i + 1 + m] == s[j + (i + 1 + m)];
    }
    if |y| <= k {
      assert y == marker[..|y|];
    } else {
      assert y[..k + 1] == marker + "\n";
    }
  }

  lemma OverSecond(s: string, marker: string, p: string, j: nat, n: nat)
    requires OccursAt(s, p, j) && n < j <= n + 1 + |marker| < j + |p|
    requires s[n + 1 + |marker|] == '\n'
    requires forall i :: n < i < n + 1 + |marker| ==> s[i] == marker[i - n - 1]
    ensures SeamAt(p, marker, n + 1 + |marker| - j)
  {
    var k := |marker|;
    var i := n + 1 + k - j;
    assert p[i] == s[j + i];
    forall m | 0 <= m < i ensures p[m] == marker[k - i + m] {
      assert p[m] == s[j + m];
    }
    assert marker[k - i..] == p[..i];
  }

  /** Cutting brings no pattern back, unless the marker spells it. */
  lemma TruncationIsClean(text: string, maxChars: nat, p: string)
    requires |text| > maxChars
    requires !Contains(text, p) && !Spells(Marker(|text| - maxChars), p)
    ensures !Contains(TruncateWithMarker(text, maxChars), p)
  {
    var head, tail := TruncationIsExact(text, maxChars);
    var marker := Marker(|text| - maxChars);
    OccurrenceIn(text, p, 0, |head|);
    OccurrenceIn(text, p, |text| - |tail|, |text|);
    assert head == text[0..|head|] && tail == text[|text| - |tail|..|text|];
    assert TruncateWithMarker(text, maxChars) == Cut(head, marker, tail);
    if j :| OccursAt(TruncateWithMarker(text, maxChars), p, j) {
      WhereInCut(head, marker, tail, p, j);
    }
  }

  /** A pattern that starts or ends with a newline is always spelled. */
  lemma NewlineEndIsSpelled(p: string)
    requires p != "" && (p[0] == '\n' || p[|p| - 1] == '\n')
    ensures CutSpells(p)
  {
    var marker := Marker(1);
    if p[0] == '\n' {
      assert marker[|marker|..] == p[..0];
      assert SeamAt(p, marker, 0);
    } else {
      assert p[|p|..] == "" <= marker;
      assert SeamAt(p, marker, |p| - 1);
    }
  }

  // ---------------------------------------------------------------------------
  // A text that brings a spelled pattern back
  // ---------------------------------------------------------------------------

  function Stars(n: nat): string {
    seq(n, i => '*')
  }

  /** Some of the pattern at the end of what is kept of the head, and at the start of the tail. */
  function Padded(k: nat, x: string, n: nat, z: string, m: nat): string {
    Stars(k) + x + Stars(n) + z + Stars(m)
  }

  lemma PaddedParts(k: nat, x: string, n: nat, z: string, m: nat)
    ensures var s, a, b := Padded(k, x, n, z, m), k + |x|, k + |x| + n;
            && |s| == b + |z| + m
            && (forall i :: 0 <= i < k || a <= i < b || b + |z| <= i < |s| ==> s[i] == '*')
            && s[..a] == Stars(k) + x && s[b..] == z + Stars(m)
  {
  }

  /** A robust pattern too long for either piece is not in it. */
  lemma PaddedIsFree(k: nat, x: string, n: nat, z: string, m: nat, q: string)
    requires Robust(q) && |x| < |q| && |z| < |q|
    requires x == "" || z == "" || n >= 3 || |x| + n + |z| < |q|
    ensures !Contains(Padded(k, x, n, z, m), q)
  {
    hide Padded;
    PaddedParts(k, x, n, z, m);
    var s := Padded(k, x, n, z, m);
    if j :| OccursAt(s, q, j) {
      assert s[j] == q[0] != '*' && s[j + |q| - 1] == q[|q| - 1] != '*';
      var a := k + |x|;
      if n >= 3 && j < a <= a + 3 <= j + |q| {
        assert q[a - j] == s[a] && q[a - j + 1] == s[a + 1] && q[a - j + 2] == s[a + 2];
        StarsAt(q, a - j);
      }
    }
  }

  /** With these pieces of it on either side, the marker makes the pattern whole. */
  ghost predicate Whole(p: string, marker: string, x: string, z: string) {
    forall u, v :: Contains(Cut(u + x, marker, z + v), p)
  }

  lemma Pieces(p: string, marker: string) returns (x: string, z: string)
    requires p != "" && Spells(marker, p)
    ensures |x| < |p| && |z| < |p|
    ensures x == "" || z == "" || |x| + |marker| + |z| < |p|
    ensures '\n' !in p ==> x == z == ""
    ensures Whole(p, marker, x, z)
  {
    hide Contains, Whole;
    if Contains(marker, p) {
      x, z := "", "";
      StandsInside(p, marker);
    } else {
      var i: nat :| SeamAt(p, marker, i);
      var y := p[i + 1..];
      if y <= marker {
        x, z := p[..i], "";
        StandsBefore(p, marker, i);
      } else if marker + "\n" <= y {
        x, z := p[..i], y[|marker| + 1..];
        StandsAround(p, marker, i);
      } else {
        x, z := "", y;
        StandsAfter(p, marker, i);
      }
    }
  }

  lemma InMiddle(u: string, p: string, v: string)
    ensures Contains(u + p + v, p)
  {
    assert OccursAt(u + p + v, p, |u|);
  }

  lemma StandsInside(p: string, marker: string)
    requires Contains(marker, p)
    ensures Whole(p, marker, "", "")
  {
    var j :| OccursAt(marker, p, j);
    forall u, v ensures Contains(Cut(u + "", marker, "" + v), p) {
      CutParts(u + "", marker, "" + v);
      assert OccursAt(Cut(u + "", marker, "" + v), p, |u| + 1 + j);
    }
  }

  lemma StandsBefore(p: string, marker: string, i: nat)
    requires i < |p| && p[i] == '\n' && p[i + 1..] <= marker
    ensures Whole(p, marker, p[..i], "")
  {
    hide Contains;
    var x, y := p[..i], p[i + 1..];
    assert p == x + "\n" + y && marker == y + marker[|y|..];
    forall u, v ensures Contains(Cut(u + x, marker, "" + v), p) {
      var rest := marker[|y|..] + "\n" + v;
      assert Cut(u + x, marker, "" + v) == u + p + rest;
      InMiddle(u, p, rest);
    }
  }

  lemma StandsAround(p: string, marker: string, i: nat)
    requires i < |p| && p[i] == '\n' && marker + "\n" <= p[i + 1..]
    ensures Whole(p, marker, p[..i], p[i + 1..][|marker| + 1..])
  {
    hide Contains;
    var x, y := p[..i], p[i + 1..];
    var z := y[|marker| + 1..];
    assert y == marker + "\n" + z by { assert y[..|marker| + 1] == marker + "\n"; }
    assert p == x + "\n" + y;
    forall u, v ensures Contains(Cut(u + x, marker, z + v), p) {
      assert Cut(u + x, marker, z + v) == u + p + v;
      InMiddle(u, p, v);
    }
  }

  lemma StandsAfter(p: string, marker: string, i: nat)
    requires i < |p| && p[i] == '\n' && EndsWith(marker, p[..i])
    ensures Whole(p, marker, "", p[i + 1..])
  {
    hide Contains;
    var x, y := p[..i], p[i + 1..];
    var start := marker[..|marker| - i];
    assert marker == start + x && p == x + "\n" + y;
    forall u, v ensures Contains(Cut(u + "", marker, y + v), p) {
      var before := u + "\n" + start;
      assert Cut(u + "", marker, y + v) == before + p + v;
      InMiddle(before, p, v);
    }
  }

  /** No robust pattern is in the text that is as long as `p`, nor any at all when `p` has no newline. */
  ghost predicate FreeFor(text: string, p: string) {
    forall q :: Robust(q) && (|p| <= |q| || '\n' !in p) ==> !Contains(text, q)
  }

  lemma FreeOf(text: string, p: string, q: string)
    requires FreeFor(text, p) && Robust(q) && (|p| <= |q| || '\n' !in p)
    ensures !Contains(text, q)
  {
  }

  lemma RobustIsSome(q: string)
    requires Robust(q)
    ensures |q| > 0
  {
  }

  lemma PaddedIsFreeFor(k: nat, x: string, n: nat, z: string, m: nat, p: string)
    requires |x| < |p| && |z| < |p| && ('\n' !in p ==> x == z == "")
    requires x == "" || z == "" || n >= 3 || |x| + n + |z| < |p|
    ensures FreeFor(Padded(k, x, n, z, m), p)
  {
    hide Padded, Robust, Contains;
    forall q | Robust(q) && (|p| <= |q| || '\n' !in p) ensures !Contains(Padded(k, x, n, z, m), q) {
      RobustIsSome(q);
      PaddedIsFree(k, x, n, z, m, q);
    }
  }

  lemma ThreeQuarters(l: nat)
    ensures 4 * l * 3 / 4 == 3 * l
  {
  }

  lemma CutAt(text: string, l: nat, n: nat)
    requires |text| == 4 * l + n && n >= 1
    ensures TruncateWithMarker(text, 4 * l) == Cut(text[..3 * l], Marker(n), text[3 * l + n..])
  {
    hide Marker;
    ThreeQuarters(l);
  }

  lemma PaddedIsCut(l: nat, x: string, n: nat, z: string)
    requires |x| <= l && |z| <= l && n >= 1
    ensures var k, m := 3 * l - |x|, l - |z|;
            && |Padded(k, x, n, z, m)| > 4 * l
            && TruncateWithMarker(Padded(k, x, n, z, m), 4 * l) == Cut(Stars(k) + x, Marker(n), z + Stars(m))
  {
    hide Padded, Stars, Marker, Cut, TruncateWithMarker;
    var k, m := 3 * l - |x|, l - |z|;
    PaddedParts(k, x, n, z, m);
    CutAt(Padded(k, x, n, z, m), l, n);
  }

  lemma WholeIs(p: string, marker: string, x: string, z: string, u: string, v: string)
    requires Whole(p, marker, x, z)
    ensures Contains(Cut(u + x, marker, z + v), p)
  {
  }

  lemma MarkerIsLong(n: nat)
    ensures |Marker(n)| >= 3
  {
  }

  lemma BroughtBack(p: string, omitted: nat) returns (text: string, maxChars: nat)
    requires p != "" && omitted >= 1 && Spells(Marker(omitted), p)
    ensures |text| > maxChars && Contains(TruncateWithMarker(text, maxChars), p)
    ensures FreeFor(text, p)
  {
    hide Spells, Whole, Contains, Padded, Cut, FreeFor, TruncateWithMarker, Marker, Stars;
    var l, marker := |p|, Marker(omitted);
    var x, z := Pieces(p, marker);
    var k, m := 3 * l - |x|, l - |z|;
    maxChars := 4 * l;
    text := Padded(k, x, omitted, z, m);
    MarkerIsLong(omitted);
    PaddedIsFreeFor(k, x, omitted, z, m, p);
    PaddedIsCut(l, x, omitted, z);
    assert Contains(Cut(Stars(k) + x, marker, z + Stars(m)), p) by { WholeIs(p, marker, x, z, Stars(k), Stars(m)); }
  }

  // ---------------------------------------------------------------------------
  // Tool results
  // ---------------------------------------------------------------------------

  /** `rest` is whatever else a value carries, written out. */
  datatype Block = TextBlock(text: string) | TypedBlock(kind: string, rest: string) | OtherBlock(rest: string)

  datatype Content = Plain(text: string) | Blocks(blocks: seq<Block>) | OtherContent(rest: string)

  function CapText(text: string, secrets: seq<string>, cap: nat): string
    requires "" !in secrets
  {
    TruncateWithMarker(Redacted(text, secrets), cap)
  }

  function CapBlock(b: Block, secrets: seq<string>, cap: nat): Block
    requires "" !in secrets
  {
    match b
    case TextBlock(text) => TextBlock(CapText(text, secrets, cap))
    case TypedBlock(kind, _) => TypedBlock(kind, "")
    case OtherBlock(_) => b
  }

  function CapToolResultContent(c: Content, secrets: seq<string>, cap: nat): Content
    requires "" !in secrets
  {
    match c
    case Plain(text) => Plain(CapText(text, secrets, cap))
    case Blocks(blocks) =>
      Blocks(seq(|blocks|, i requires 0 <= i < |blocks| => CapBlock(blocks[i], secrets, cap)))
    case OtherContent(_) => c
  }

  function Texts(c: Content): set<string> {
    match c
    case Plain(text) => {text}
    case Blocks(blocks) => set b | b in blocks && b.TextBlock? :: b.text
    case OtherContent(_) => {}
  }

  /** No form of a secret is in the text. */
  ghost predicate Clean(text: string, secrets: seq<string>)
    requires "" !in secrets
  {
    forall p :: p in Patterns(secrets) ==> !Contains(text, p)
  }

  lemma {:induction false} NothingToReplace(text: string, patterns: seq<string>)
    requires "" !in patterns && forall p :: p in patterns ==> !Contains(text, p)
    ensures ReplaceEach(text, patterns) == text
  {
    if patterns != [] {
      var n := |patterns| - 1;
      NothingToReplace(text, patterns[..n]);
      assert patterns[n] in patterns && !Contains(text, patterns[n]);
    }
  }

  /** A text that fits is cut nowhere: it is what redaction makes of it, and itself if it is clean. */
  ghost predicate TextKept(text: string, r: string, secrets: seq<string>, cap: nat)
    requires "" !in secrets
  {
    && (|Redacted(text, secrets)| <= cap ==> r == Redacted(text, secrets))
    && (Clean(text, secrets) && |text| <= cap ==> r == text)
  }

  lemma FittingTextKept(text: string, secrets: seq<string>, cap: nat)
    requires "" !in secrets
    ensures TextKept(text, CapText(text, secrets, cap), secrets, cap)
  {
    if Clean(text, secrets) {
      NothingToReplace(text, Patterns(secrets));
    }
  }

  ghost predicate BlockKept(b: Block, r: Block, secrets: seq<string>, cap: nat)
    requires "" !in secrets
  {
    match b
    case TextBlock(text) => r.TextBlock? && TextKept(text, r.text, secrets, cap)
    case TypedBlock(kind, _) => r == TypedBlock(kind, "")
    case OtherBlock(_) => r == b
  }

  ghost predicate ContentKept(c: Content, r: Content, secrets: seq<string>, cap: nat)
    requires "" !in secrets
  {
    match c
    case Plain(text) => r.Plain? && TextKept(text, r.text, secrets, cap)
    case Blocks(blocks) =>
      && r.Blocks? && |r.blocks| == |blocks|
      && forall i :: 0 <= i < |blocks| ==> BlockKept(blocks[i], r.blocks[i], secrets, cap)
    case OtherContent(_) => r == c
  }

  /** A capped result keeps its shape: the number, order and kind of its blocks, the type of each, and
      nothing but the type of one that is no text. Every text that fits is what redaction makes of it,
      and a clean one that fits comes back unchanged. */
  lemma CappedResultKeeps(c: Content, secrets: seq<string>, cap: nat)
    requires "" !in secrets
    ensures ContentKept(c, CapToolResultContent(c, secrets, cap), secrets, cap)
  {
    hide CapText, TextKept;
    match c
    case Plain(text) => FittingTextKept(text, secrets, cap);
    case Blocks(blocks) =>
      forall i | 0 <= i < |blocks| ensures BlockKept(blocks[i], CapBlock(blocks[i], secrets, cap), secrets, cap) {
        if blocks[i].TextBlock? {
          FittingTextKept(blocks[i].text, secrets, cap);
        }
      }
    case OtherContent(_) =>
  }

  /** What is redacted of a secret: the value itself, and how it looks inside a JSON string. */
  ghost predicate FormOf(p: string, v: Variable) {
    Sensitive(v) && (p == v.value.value || p == Escape(v.value.value))
  }

  /** Redaction comes first, so the cut cannot split a secret; it can only put one together, from a
      newline or the marker. */
  lemma CappedTextHoldsNoSecret(env: seq<Variable>, text: string, cap: nat, v: Variable, p: string)
    requires v in env && FormOf(p, v) && Robust(v.value.value) && !CutSpells(p)
    ensures CapHides(env, text, cap, p)
  {
    NoSecretLeaves(env, text, v);
    var whole := Redacted(text, Secrets(env));
    if |whole| > cap { TruncationIsClean(whole, cap, p); }
  }

  ghost predicate CapHides(env: seq<Variable>, text: string, cap: nat, p: string) {
    !Contains(CapText(text, Secrets(env), cap), p)
  }

  lemma EscapeNotShorter(s: string)
    ensures |Escape(s)| >= |s|
  {
  }

  /** A text without either form of the one secret is left as it is. */
  lemma NothingToRedact(p: string, text: string)
    requires p != "" && Escape(p) != "" && !Contains(text, p) && !Contains(text, Escape(p))
    ensures Redacted(text, [p]) == text
  {
    RedactedSnoc(text, [], p);
    NothingRedacted(text);
    assert [] + [p] == [p];
    assert IndexOf(text, p).None? && IndexOf(text, Escape(p)).None?;
  }

  /** With this secret alone, a text that holds neither form, and holds one once it is cut. */
  lemma ComesBack(v: Variable, p: string) returns (text: string, cap: nat)
    requires FormOf(p, v) && Robust(v.value.value) && CutSpells(p)
    ensures !Contains(text, v.value.value) && !CapHides([v], text, cap, p)
  {
    hide Robust, Spells, Contains, Escape, TruncateWithMarker, Secrets, Redacted, FreeFor;
    var raw := v.value.value;
    var omitted: nat :| omitted >= 1 && Spells(Marker(omitted), p);
    EscapeKeepsRobust(raw);
    EscapeNotShorter(raw);
    EscapeHasNoNewline(raw);
    RobustIsSome(raw);
    text, cap := BroughtBack(p, omitted);
    FreeOf(text, p, raw);
    FreeOf(text, p, Escape(raw));
    NothingToRedact(raw, text);
    OnlySecret(v);
  }

  /** Exactly which form of a robust secret no capped text can hold. */
  lemma CappedFormExactlyWhen(v: Variable, p: string)
    requires FormOf(p, v) && Robust(v.value.value)
    ensures (forall env, text, cap :: v in env ==> CapHides(env, text, cap, p)) <==> !CutSpells(p)
  {
    hide CutSpells;
    if CutSpells(p) {
      var text, cap := ComesBack(v, p);
      assert v in [v] && !CapHides([v], text, cap, p);
    } else {
      forall env, text, cap | v in env ensures CapHides(env, text, cap, p) {
        CappedTextHoldsNoSecret(env, text, cap, v, p);
      }
    }
  }

  /** Exactly which secrets no capped text can hold as they are. */
  lemma CappedCertainExactlyWhen(v: Variable)
    requires Sensitive(v)
    ensures (forall env, text, cap :: v in env ==> CapHides(env, text, cap, v.value.value)) <==>
            Robust(v.value.value) && !CutSpells(v.value.value)
  {
    var p := v.value.value;
    if Robust(p) {
      CappedFormExactlyWhen(v, p);
    } else {
      var text := SurvivesRedaction(p);
      OnlySecret(v);
      assert v in [v] && !CapHides([v], text, |Redacted(text, [p])|, p);
    }
  }

  /** One that comes back: a robust value that ends with a newline. */
  lemma NewlineComesBack() returns (text: string, cap: nat)
    ensures var v := Variable("TOKEN", Some("abcdefgh\n"));
            && Sensitive(v) && Robust("abcdefgh\n")
            && !Contains(text, "abcdefgh\n") && Contains(CapText(text, Secrets([v]), cap), "abcdefgh\n")
  {
    var p := "abcdefgh\n";
    PlainValue();
    hide CutSpells, Contains, OccursAt, CapText, Robust;
    text, cap := ComesBack(Variable("TOKEN", Some(p)), p);
  }

  lemma PlainValue()
    ensures Sensitive(Variable("TOKEN", Some("abcdefgh\n")))
    ensures Robust("abcdefgh\n") && CutSpells("abcdefgh\n")
  {
    hide CutSpells, Contains;
    var p := "abcdefgh\n";
    assert p[8] == '\n';
    NewlineEndIsSpelled(p);
    NoStarIsRobust(p);
  }

  /** No text of a capped tool result holds a secret in either form, whatever its shape, unless the
      cut spells that form. */
  lemma CappedResultHoldsNoSecret(env: seq<Variable>, c: Content, cap: nat, v: Variable, p: string, text: string)
    requires v in env && FormOf(p, v) && Robust(v.value.value) && !CutSpells(p)
    requires text in Texts(CapToolResultContent(c, Secrets(env), cap))
    ensures !Contains(text, p)
  {
    match c
    case Plain(original) => CappedTextHoldsNoSecret(env, original, cap, v, p);
    case Blocks(blocks) =>
      var capped := CapToolResultContent(c, Secrets(env), cap).blocks;
      var i :| 0 <= i < |capped| && capped[i] == TextBlock(text);
      CappedTextHoldsNoSecret(env, blocks[i].text, cap, v, p);
    case OtherContent(_) =>
  }
}
