/** Tool servers and their tokens as the environment lists them. */
module ServerLists {
  import opened Wrappers
  import opened Text

  // ---- Trimming ----

  /** White space and line ends, section 22.1.3.32 of ECMA-262. */
  predicate IsSpace(c: char) {
    var n := c as int;
    || 9 <= n <= 13 || n == 0x20 || n == 0xa0 || n == 0x1680 || 0x2000 <= n <= 0x200a
    || n == 0x2028 || n == 0x2029 || n == 0x202f || n == 0x205f || n == 0x3000 || n == 0xfeff
  }

  predicate Trimmed(s: string) {
    s != "" ==> !IsSpace(s[0]) && !IsSpace(s[|s| - 1])
  }

  predicate Solid(s: string) {
    s != "" && Trimmed(s)
  }

  function Trim(s: string): (r: string)
    ensures Trimmed(r) && |r| <= |s| && forall c :: c in r ==> c in s
    ensures Trimmed(s) ==> r == s
    decreases |s|
  {
    if s == "" then s
    else if IsSpace(s[0]) then Trim(s[1..])
    else if IsSpace(s[|s| - 1]) then Trim(s[..|s| - 1])
    else s
  }

  /** Dropping blanks at an end does not drop a character that is no blank. */
  lemma {:induction false} TrimKeeps(s: string, i: nat)
    requires i < |s| && !IsSpace(s[i])
    ensures s[i] in Trim(s)
    decreases |s|
  {
    if IsSpace(s[0]) {
      TrimKeeps(s[1..], i - 1);
    } else if IsSpace(s[|s| - 1]) {
      TrimKeeps(s[..|s| - 1], i);
    }
  }

  // ---- Server and token lists ----

  datatype Pair = Pair(name: string, value: string)

  datatype Parsed = Ok(servers: seq<Pair>) | Malformed

  /** The equals sign of an entry, when it stands at neither end. */
  function EqualsAt(p: string): (r: Option<nat>)
    ensures r.Some? ==> 0 < r.value < |p| - 1 && p[r.value] == '=' && '=' !in p[..r.value]
  {
    var eq := IndexOfChar(p, '=');
    if eq.None? || eq.value < 1 || eq.value == |p| - 1 then None else eq
  }

  /** The two sides of an entry; neither can be blank, since the entry is trimmed. */
  function Entry(raw: string): (r: Option<Pair>)
    ensures r.Some? ==> r.value.name != "" && r.value.value != ""
  {
    var p := Trim(raw);
    var eq := EqualsAt(p);
    if eq.None? then None
    else
      TrimKeeps(p[..eq.value], 0);
      TrimKeeps(p[eq.value + 1..], |p| - eq.value - 2);
      Some(Pair(Trim(p[..eq.value]), Trim(p[eq.value + 1..])))
  }

  function Names(pairs: seq<Pair>): set<string> {
    set p <- pairs :: p.name
  }

  /** The first pair of each name. */
  function Firsts(pairs: seq<Pair>): seq<Pair> {
    if pairs == [] then []
    else
      var n := |pairs| - 1;
      Firsts(pairs[..n]) + if pairs[n].name in Names(pairs[..n]) then [] else [pairs[n]]
  }

  /** The entries that have both sides, in order. */
  function Entries(parts: seq<string>): seq<Pair> {
    if parts == [] then []
    else
      var n := |parts| - 1;
      var e := Entry(parts[n]);
      Entries(parts[..n]) + if e.Some? then [e.value] else []
  }

  predicate AllEntries(parts: seq<string>) {
    forall i :: 0 <= i < |parts| ==> Entry(parts[i]).Some?
  }

  function Parts(env: string): seq<string> {
    if Trim(env) == "" then [] else Split(Trim(env), ',')
  }

  function Servers(env: string): Parsed {
    if AllEntries(Parts(env)) then Ok(Firsts(Entries(Parts(env)))) else Malformed
  }

  /** The last pair of each name. */
  function Lasts(pairs: seq<Pair>): map<string, string> {
    if pairs == [] then map[]
    else var n := |pairs| - 1; Lasts(pairs[..n])[pairs[n].name := pairs[n].value]
  }

  /** The tests the parsers make one after the other, and that the last of them never fails. */
  lemma EntryBySteps(raw: string)
    ensures var p := Trim(raw);
      var eq := IndexOfChar(p, '=');
      if eq.None? || eq.value < 1 || eq.value == |p| - 1 then Entry(raw).None?
      else
        && Entry(raw) == Some(Pair(Trim(p[..eq.value]), Trim(p[eq.value + 1..])))
        && Trim(p[..eq.value]) != "" && Trim(p[eq.value + 1..]) != ""
  {
    hide Trim, IndexOfChar;
  }

  lemma AllStart()
    ensures AllEntries([]) && Entries([]) == [] && Firsts([]) == [] && Lasts([]) == map[]
  {
  }

  /** One more part, and what it adds. */
  lemma EntriesStep(parts: seq<string>, i: nat)
    requires i < |parts|
    ensures AllEntries(parts[..i + 1]) <==> AllEntries(parts[..i]) && Entry(parts[i]).Some?
    ensures AllEntries(parts) ==> Entry(parts[i]).Some?
    ensures var before, after := Entries(parts[..i]), Entries(parts[..i + 1]);
      if Entry(parts[i]).None? then after == before
      else
        var e := Entry(parts[i]).value;
        && Names(after) == Names(before) + {e.name}
        && Firsts(after) == Firsts(before) + (if e.name in Names(before) then [] else [e])
        && Lasts(after) == Lasts(before)[e.name := e.value]
  {
    hide Entry;
    assert parts[..i + 1][..i] == parts[..i];
    var before, after := Entries(parts[..i]), Entries(parts[..i + 1]);
    if Entry(parts[i]).Some? {
      var e := Entry(parts[i]).value;
      assert after == before + [e] && after[..|before|] == before;
      NamesSnoc(before, e);
    }
  }

  method ParseServers(env: string) returns (r: Parsed)
    ensures r == Servers(env)
  {
    hide Entry, Entries, Firsts, Trim, IndexOfChar, Split, AllEntries;
    var trimmed := Trim(env);
    AllStart();
    if trimmed == "" {
      return Ok([]);
    }
    var parts := Split(trimmed, ',');
    var out: seq<Pair> := [];
    var seen: set<string> := {};
    var i := 0;
    while i < |parts|
      invariant 0 <= i <= |parts|
      invariant AllEntries(parts[..i])
      invariant out == Firsts(Entries(parts[..i])) && seen == Names(Entries(parts[..i]))
    {
      EntryBySteps(parts[i]);
      EntriesStep(parts, i);
      var p := Trim(parts[i]);
      var eq := IndexOfChar(p, '=');
      if eq.None? || eq.value < 1 || eq.value == |p| - 1 {
        return Malformed;
      }
      var name, url := Trim(p[..eq.value]), Trim(p[eq.value + 1..]);
      if name == "" || url == "" {
        return Malformed;
      }
      if name !in seen {
        seen := seen + {name};
        out := out + [Pair(name, url)];
      }
      i := i + 1;
    }
    assert parts[..i] == parts;
    return Ok(out);
  }

  method ParseTokens(env: string) returns (out: map<string, string>)
    ensures out == Lasts(Entries(Parts(env)))
  {
    hide Entry, Entries, Lasts, Trim, IndexOfChar, Split;
    out := map[];
    AllStart();
    var trimmed := Trim(env);
    if trimmed == "" {
      return;
    }
    var parts := Split(trimmed, ',');
    var i := 0;
    while i < |parts|
      invariant 0 <= i <= |parts|
      invariant out == Lasts(Entries(parts[..i]))
    {
      EntryBySteps(parts[i]);
      EntriesStep(parts, i);
      var p := Trim(parts[i]);
      var eq := IndexOfChar(p, '=');
      if !(eq.None? || eq.value < 1 || eq.value == |p| - 1) {
        var name, token := Trim(p[..eq.value]), Trim(p[eq.value + 1..]);
        if name != "" && token != "" {
          out := out[name := token];
        }
      }
      i := i + 1;
    }
    assert parts[..i] == parts;
  }

  lemma NamesSnoc(pairs: seq<Pair>, p: Pair)
    ensures Names(pairs + [p]) == Names(pairs) + {p.name}
  {
  }

  ghost predicate DistinctNames(pairs: seq<Pair>) {
    forall i, j :: 0 <= i < j < |pairs| ==> pairs[i].name != pairs[j].name
  }

  /** A pair that no earlier pair shares its name with. */
  ghost predicate IsFirst(pairs: seq<Pair>, p: Pair) {
    exists i :: 0 <= i < |pairs| && pairs[i] == p && p.name !in Names(pairs[..i])
  }

  lemma IsFirstSnoc(pairs: seq<Pair>, p: Pair)
    requires pairs != []
    ensures var n := |pairs| - 1;
      IsFirst(pairs, p) <==>
      IsFirst(pairs[..n], p) || (pairs[n] == p && p.name !in Names(pairs[..n]))
  {
    var n := |pairs| - 1;
    forall i | 0 <= i < n ensures pairs[..n][..i] == pairs[..i] && pairs[..n][i] == pairs[i] {
    }
    if IsFirst(pairs[..n], p) {
      var i :| 0 <= i < n && pairs[..n][i] == p && p.name !in Names(pairs[..n][..i]);
      assert pairs[i] == p;
    }
  }

  /** The list keeps the first pair of every name and nothing else, under distinct names. */
  lemma DistinctSnoc(pairs: seq<Pair>, p: Pair)
    requires DistinctNames(pairs) && p.name !in Names(pairs)
    ensures DistinctNames(pairs + [p])
  {
    forall i | 0 <= i < |pairs| ensures pairs[i].name in Names(pairs) {
    }
  }

  lemma {:induction false} FirstsMeaning(pairs: seq<Pair>)
    ensures DistinctNames(Firsts(pairs)) && Names(Firsts(pairs)) == Names(pairs)
    ensures forall p :: p in Firsts(pairs) <==> IsFirst(pairs, p)
  {
    if pairs != [] {
      hide DistinctNames, Names, IsFirst;
      var n := |pairs| - 1;
      FirstsMeaning(pairs[..n]);
      assert pairs == pairs[..n] + [pairs[n]];
      NamesSnoc(pairs[..n], pairs[n]);
      var was := Firsts(pairs[..n]);
      NamesSnoc(was, pairs[n]);
      if pairs[n].name !in Names(was) {
        DistinctSnoc(was, pairs[n]);
      }
      forall p ensures p in Firsts(pairs) <==> IsFirst(pairs, p) {
        IsFirstSnoc(pairs, p);
      }
    }
  }

  lemma LastIsFirst(pairs: seq<Pair>)
    requires DistinctNames(pairs) && pairs != []
    ensures pairs[|pairs| - 1].name !in Names(pairs[..|pairs| - 1])
    ensures DistinctNames(pairs[..|pairs| - 1])
  {
    var n := |pairs| - 1;
    forall p | p in pairs[..n] ensures p.name != pairs[n].name {
    }
  }

  lemma {:induction false} FirstsOfDistinct(pairs: seq<Pair>)
    requires DistinctNames(pairs)
    ensures Firsts(pairs) == pairs
  {
    if pairs != [] {
      hide DistinctNames, Names;
      LastIsFirst(pairs);
      FirstsOfDistinct(pairs[..|pairs| - 1]);
    }
  }

  // ---- Writing a list out and reading it again ----

  function Written(p: Pair): string {
    p.name + "=" + p.value
  }

  function WrittenAll(pairs: seq<Pair>): seq<string> {
    seq(|pairs|, i requires 0 <= i < |pairs| => Written(pairs[i]))
  }

  function Print(pairs: seq<Pair>): string {
    Join(WrittenAll(pairs), ',')
  }

  /** What every accepted entry looks like. */
  ghost predicate Plain(p: Pair) {
    && p.name != "" && p.value != "" && Trimmed(p.name) && Trimmed(p.value)
    && '=' !in p.name && ',' !in p.name && ',' !in p.value
  }

  lemma EntryPlain(raw: string)
    requires ',' !in raw && Entry(raw).Some?
    ensures Plain(Entry(raw).value)
  {
  }

  lemma {:induction false} EntriesPlain(parts: seq<string>)
    requires forall p :: p in parts ==> ',' !in p
    ensures forall e :: e in Entries(parts) ==> Plain(e)
  {
    if parts != [] {
      var n := |parts| - 1;
      EntriesPlain(parts[..n]);
      assert parts[n] in parts;
      if Entry(parts[n]).Some? {
        EntryPlain(parts[n]);
      }
    }
  }

  lemma EntryOfWritten(p: Pair)
    requires Plain(p)
    ensures Entry(Written(p)) == Some(p) && ',' !in Written(p)
    ensures Solid(Written(p))
  {
    var s := Written(p);
    var n := |p.name|;
    assert s[0] == p.name[0] && s[|s| - 1] == p.value[|p.value| - 1];
    assert s[..n] == p.name && s[n + 1..] == p.value;
    IndexOfCharUnique(s, '=', n);
  }

  lemma WrittenSnoc(pairs: seq<Pair>)
    requires pairs != []
    ensures var n := |pairs| - 1; WrittenAll(pairs) == WrittenAll(pairs[..n]) + [Written(pairs[n])]
  {
    hide Written;
  }

  lemma EntriesSnoc(parts: seq<string>, p: string)
    ensures Entries(parts + [p]) == Entries(parts) + if Entry(p).Some? then [Entry(p).value] else []
    ensures AllEntries(parts + [p]) <==> AllEntries(parts) && Entry(p).Some?
  {
    hide Entry;
    assert (parts + [p])[..|parts|] == parts;
  }

  ghost predicate AllPlain(pairs: seq<Pair>) {
    forall p :: p in pairs ==> Plain(p)
  }

  lemma PlainParts(pairs: seq<Pair>)
    requires AllPlain(pairs) && pairs != []
    ensures AllPlain(pairs[..|pairs| - 1]) && Plain(pairs[|pairs| - 1])
  {
    assert pairs[|pairs| - 1] in pairs;
  }

  lemma {:induction false} EntriesOfWritten(pairs: seq<Pair>)
    requires AllPlain(pairs)
    ensures Entries(WrittenAll(pairs)) == pairs && AllEntries(WrittenAll(pairs))
  {
    if pairs != [] {
      hide Entry, Entries, AllEntries, Written, WrittenAll, Plain, AllPlain;
      PlainParts(pairs);
      var n := |pairs| - 1;
      EntriesOfWritten(pairs[..n]);
      WrittenSnoc(pairs);
      EntryOfWritten(pairs[n]);
      EntriesSnoc(WrittenAll(pairs[..n]), Written(pairs[n]));
      assert pairs == pairs[..n] + [pairs[n]];
    }
  }

  lemma {:induction false} JoinSolid(parts: seq<string>)
    requires |parts| > 0 && forall i :: 0 <= i < |parts| ==> Solid(parts[i])
    ensures Solid(Join(parts, ','))
  {
    if |parts| > 1 {
      JoinSolid(parts[1..]);
    }
  }

  /** A list of plain pairs is written out and read back unchanged. */
  lemma PrintReadsBack(pairs: seq<Pair>)
    requires AllPlain(pairs)
    ensures Entries(Parts(Print(pairs))) == pairs && AllEntries(Parts(Print(pairs)))
  {
    var parts := WrittenAll(pairs);
    if pairs != [] {
      forall i | 0 <= i < |parts| ensures ',' !in parts[i] && Solid(parts[i]) {
        assert pairs[i] in pairs;
        EntryOfWritten(pairs[i]);
      }
      JoinSolid(parts);
      SplitJoin(parts, ',');
      assert Parts(Print(pairs)) == parts;
    }
    EntriesOfWritten(pairs);
  }

  lemma PartsHaveNoComma(env: string)
    ensures forall p :: p in Parts(env) ==> ',' !in p
  {
  }

  lemma FirstsFrom(pairs: seq<Pair>)
    ensures forall p :: p in Firsts(pairs) ==> p in pairs
  {
  }

  /** An accepted list has distinct names, and printing and re-parsing it is the identity. */
  lemma ServersReadBack(env: string)
    requires Servers(env).Ok?
    ensures DistinctNames(Servers(env).servers)
    ensures Servers(Print(Servers(env).servers)) == Servers(env)
  {
    var pairs := Entries(Parts(env));
    var out := Firsts(pairs);
    PartsHaveNoComma(env);
    EntriesPlain(Parts(env));
    FirstsMeaning(pairs);
    FirstsFrom(pairs);
    PrintReadsBack(out);
    FirstsOfDistinct(out);
  }

  lemma {:induction false} LastsKeys(pairs: seq<Pair>)
    ensures Lasts(pairs).Keys == Names(pairs)
  {
    if pairs != [] {
      var n := |pairs| - 1;
      LastsKeys(pairs[..n]);
      assert pairs == pairs[..n] + [pairs[n]];
      NamesSnoc(pairs[..n], pairs[n]);
    }
  }

  lemma {:induction false} LastsOfDistinct(pairs: seq<Pair>)
    requires DistinctNames(pairs)
    ensures forall i :: 0 <= i < |pairs| ==>
      pairs[i].name in Lasts(pairs) && Lasts(pairs)[pairs[i].name] == pairs[i].value
  {
    if pairs != [] {
      var n := |pairs| - 1;
      LastsOfDistinct(pairs[..n]);
      forall i | 0 <= i < n ensures pairs[i].name in Lasts(pairs) && Lasts(pairs)[pairs[i].name] == pairs[i].value {
        assert pairs[..n][i] == pairs[i] && pairs[i].name != pairs[n].name;
      }
    }
  }

  /** Read as a token list, an accepted server list names the same servers, and it gives the same
      values as well once it is written out without its duplicates. */
  lemma TokensNameTheServers(env: string)
    requires Servers(env).Ok?
    ensures Lasts(Entries(Parts(env))).Keys == Names(Servers(env).servers)
    ensures forall s :: s in Servers(env).servers ==>
      var tokens := Lasts(Entries(Parts(Print(Servers(env).servers))));
      s.name in tokens && tokens[s.name] == s.value
  {
    var pairs := Entries(Parts(env));
    LastsKeys(pairs);
    FirstsMeaning(pairs);
    FirstsFrom(pairs);
    PartsHaveNoComma(env);
    EntriesPlain(Parts(env));
    PrintReadsBack(Firsts(pairs));
    LastsOfDistinct(Firsts(pairs));
  }

  // ---- What lists say ----

  predicate Blank(s: string) {
    forall c :: c in s ==> IsSpace(c)
  }

  /** Trimming drops blanks at both ends and nothing else. */
  lemma {:induction false} TrimMeans(s: string) returns (a: string, b: string)
    ensures s == a + Trim(s) + b && Blank(a) && Blank(b)
    decreases |s|
  {
    if s == "" {
      a, b := "", "";
    } else if IsSpace(s[0]) {
      var a', b' := TrimMeans(s[1..]);
      a, b := [s[0]] + a', b';
      assert s == [s[0]] + s[1..];
    } else if IsSpace(s[|s| - 1]) {
      var n := |s| - 1;
      var a', b' := TrimMeans(s[..n]);
      a, b := a', b' + [s[n]];
      assert s == s[..n] + [s[n]];
    } else {
      a, b := "", "";
    }
  }

  lemma SpacesAre()
    ensures IsSpace(' ') && IsSpace('\t') && IsSpace('\n') && IsSpace('\r')
    ensures !IsSpace('a') && !IsSpace('=') && !IsSpace(',') && !IsSpace('/') && !IsSpace('0')
  {
  }

  lemma {:induction false} TrimBlanks(a: string, s: string, b: string)
    requires Blank(a) && Blank(b) && Solid(s)
    ensures Trim(a + s + b) == s
    decreases |a| + |b|
  {
    var t := a + s + b;
    if a != "" {
      assert t[0] == a[0] && a[0] in a && t[1..] == a[1..] + s + b;
      TrimBlanks(a[1..], s, b);
    } else if b != "" {
      var n := |b| - 1;
      assert t == s + b && t[0] == s[0] && t[|t| - 1] == b[n] && b[n] in b;
      assert t[..|t| - 1] == a + s + b[..n];
      TrimBlanks(a, s, b[..n]);
    } else {
      assert t == s;
    }
  }

  /** An entry is its name and its value, with any blanks around either. */
  lemma EntrySays(a: string, name: string, b: string, c: string, value: string, d: string)
    requires Blank(a) && Blank(b) && Blank(c) && Blank(d)
    requires Solid(name) && Solid(value) && '=' !in name
    ensures Entry(a + (name + b + "=" + c + value) + d) == Some(Pair(name, value))
  {
    var core := name + b + "=" + c + value;
    hide Trim, Entry, IsSpace, IndexOfChar;
    BlankHasNoEquals(b);
    assert core[0] == name[0] && core[|core| - 1] == value[|value| - 1];
    TrimBlanks(a, core, d);
    var left := name + b;
    assert core == left + ['='] + (c + value);
    assert core[..|left|] == left && core[|left| + 1..] == c + value;
    IndexOfCharUnique(core, '=', |left|);
    assert left == "" + name + b && c + value == c + value + "";
    TrimBlanks("", name, b);
    TrimBlanks(c, value, "");
    EntryBySteps(a + core + d);
  }

  lemma BlankHasNoEquals(b: string)
    requires Blank(b)
    ensures '=' !in b
  {
    SpacesAre();
  }

  /** An entry without an equals sign, or with one at an end, makes the whole list malformed. */
  lemma MalformedExactlyWhen(env: string)
    ensures Servers(env).Malformed? <==>
            exists i :: 0 <= i < |Parts(env)| && BadEntry(Trim(Parts(env)[i]))
  {
    hide Parts, Trim;
    forall i | 0 <= i < |Parts(env)| ensures Entry(Parts(env)[i]).None? <==> BadEntry(Trim(Parts(env)[i])) {
      BadEntryExactly(Parts(env)[i]);
    }
  }

  predicate BadEntry(p: string) {
    '=' !in p || p[0] == '=' || ('=' !in p[..|p| - 1])
  }

  lemma BadEntryExactly(raw: string)
    ensures Entry(raw).None? <==> BadEntry(Trim(raw))
  {
    hide Trim, IndexOfChar;
    var p := Trim(raw);
    var eq := IndexOfChar(p, '=');
    if eq.Some? {
      assert '=' in p;
      if eq.value == |p| - 1 {
        assert p[..|p| - 1] == p[..eq.value];
      } else {
        assert p[..|p| - 1][eq.value] == '=';
      }
      if eq.value > 0 { assert p[0] in p[..eq.value]; }
    }
  }

  /** In a token list the last entry of a name counts. */
  lemma {:induction false} LastsMean(pairs: seq<Pair>, i: nat)
    requires i < |pairs| && forall j :: i < j < |pairs| ==> pairs[j].name != pairs[i].name
    ensures pairs[i].name in Lasts(pairs) && Lasts(pairs)[pairs[i].name] == pairs[i].value
  {
    var n := |pairs| - 1;
    if i < n {
      assert forall j :: 0 <= j < n ==> pairs[..n][j] == pairs[j];
      LastsMean(pairs[..n], i);
    }
  }
}
