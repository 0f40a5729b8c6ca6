/** What the names of tags say, told without the planner's classifier, and what a plan decides of each. */
module RetentionNames {
  import opened Wrappers
  import opened Text
  import opened Retention

  /** Two numbers with a dot, a toolchain's floating tag. */
  ghost predicate FloatShape(s: string) {
    exists a, b :: AllDigits(a) && AllDigits(b) && s == a + "." + b
  }

  lemma IsFloatExactly(s: string)
    ensures IsFloat(s) <==> FloatShape(s)
  {
    if IsFloat(s) {
      var dot := IndexOfChar(s, '.').value;
      assert s == s[..dot] + "." + s[dot + 1..];
    }
    forall a, b | AllDigits(a) && AllDigits(b) && s == a + "." + b ensures IsFloat(s) {
      FloatText(a, b);
    }
  }

  lemma NoDot(a: string)
    requires AllDigits(a)
    ensures '.' !in a && '-' !in a && 'v' !in a
  {
  }

  /** A head without the separator, and what follows it. */
  lemma HeadAndRest(a: string, c: char, b: string)
    requires c !in a
    ensures IndexOfChar(a + [c] + b, c) == Some(|a|)
    ensures (a + [c] + b)[..|a|] == a && (a + [c] + b)[|a| + 1..] == b
  {
    var s := a + [c] + b;
    assert s[..|a|] == a && s[|a| + 1..] == b;
    IndexOfCharUnique(s, c, |a|);
  }

  lemma FloatText(a: string, b: string)
    requires AllDigits(a) && AllDigits(b)
    ensures IsFloat(a + "." + b)
  {
    hide IndexOfChar;
    NoDot(a);
    HeadAndRest(a, '.', b);
    assert a + "." + b == a + ['.'] + b;
  }

  /** A version as it is written: an optional `v`, three numbers, and perhaps a suffix. */
  datatype Version = Version(v: bool, major: string, minor: string, patch: string, suffix: Option<string>)

  predicate ValidSuffix(s: string) {
    s != "" && forall c :: c in s ==> IsSuffixChar(c)
  }

  predicate ValidVersion(x: Version) {
    && AllDigits(x.major) && AllDigits(x.minor) && AllDigits(x.patch)
    && (x.suffix.Some? ==> ValidSuffix(x.suffix.value))
  }

  function Triple(x: Version): string {
    x.major + "." + (x.minor + "." + x.patch)
  }

  function Tail(x: Version): string {
    if x.suffix.Some? then "-" + x.suffix.value else ""
  }

  function VersionText(x: Version): string {
    (if x.v then "v" else "") + (Triple(x) + Tail(x))
  }

  ghost predicate SemverShape(s: string) {
    exists x :: ValidVersion(x) && s == VersionText(x)
  }

  lemma TripleText(x: Version)
    requires ValidVersion(x)
    ensures IsTriple(Triple(x)) && '-' !in Triple(x)
    ensures Triple(x) != "" && IsDigit(Triple(x)[0])
  {
    hide IndexOfChar, IsFloat;
    NoDot(x.major);
    NoDot(x.minor);
    NoDot(x.patch);
    FloatText(x.minor, x.patch);
    HeadAndRest(x.major, '.', x.minor + "." + x.patch);
    assert Triple(x) == x.major + ['.'] + (x.minor + "." + x.patch);
    assert Triple(x)[0] == x.major[0] && x.major[0] in x.major;
  }

  lemma VersionReads(x: Version)
    requires ValidVersion(x)
    ensures IsSemver(VersionText(x)) && WithoutV(VersionText(x)) == Triple(x) + Tail(x)
  {
    hide IndexOfChar, IsTriple, Triple;
    TripleText(x);
    var core := Triple(x) + Tail(x);
    assert core[0] == Triple(x)[0];
    assert ("v" + core)[1..] == core && "" + core == core;
    assert WithoutV(VersionText(x)) == core;
    VersionCore(x);
  }

  lemma VersionCore(x: Version)
    requires ValidVersion(x)
    ensures IsVersion(Triple(x) + Tail(x))
  {
    hide IndexOfChar, IsTriple, Triple;
    TripleText(x);
    var core := Triple(x) + Tail(x);
    if x.suffix.Some? {
      HeadAndRest(Triple(x), '-', x.suffix.value);
      assert core == Triple(x) + ['-'] + x.suffix.value;
    } else {
      assert core == Triple(x);
      NoneOf(core, '-');
    }
  }

  lemma NoneOf(s: string, c: char)
    requires c !in s
    ensures IndexOfChar(s, c).None?
  {
  }

  /** A text with the character, and its two sides. */
  lemma Sides(s: string, c: char)
    requires IndexOfChar(s, c).Some?
    ensures var i := IndexOfChar(s, c).value; s == s[..i] + [c] + s[i + 1..]
  {
  }

  lemma FloatParts(s: string) returns (a: string, b: string)
    requires IsFloat(s)
    ensures AllDigits(a) && AllDigits(b) && s == a + ['.'] + b
  {
    hide IndexOfChar, AllDigits;
    Sides(s, '.');
    var d := IndexOfChar(s, '.').value;
    a, b := s[..d], s[d + 1..];
  }

  lemma TripleParts(s: string) returns (a: string, b: string, c: string)
    requires IsTriple(s)
    ensures AllDigits(a) && AllDigits(b) && AllDigits(c) && s == a + "." + (b + "." + c)
  {
    hide IndexOfChar, AllDigits, IsFloat;
    Sides(s, '.');
    var d := IndexOfChar(s, '.').value;
    a := s[..d];
    b, c := FloatParts(s[d + 1..]);
    assert ['.'] == ".";
  }

  lemma VersionParts(t: string, v: bool) returns (x: Version)
    requires IsVersion(t)
    ensures ValidVersion(x) && x.v == v && t == Triple(x) + Tail(x)
  {
    hide IndexOfChar, IsTriple, AllDigits;
    var dash := IndexOfChar(t, '-');
    var a, b, c := TripleParts(if dash.Some? then t[..dash.value] else t);
    x := Version(v, a, b, c, if dash.Some? then Some(t[dash.value + 1..]) else None);
    if dash.Some? { Sides(t, '-'); }
  }

  lemma SemverParts(s: string) returns (x: Version)
    requires IsSemver(s)
    ensures ValidVersion(x) && s == VersionText(x)
  {
    hide IsVersion, ValidVersion, Triple, Tail;
    var v := s != "" && s[0] == 'v';
    x := VersionParts(WithoutV(s), v);
    assert v ==> s == "v" + s[1..];
  }

  lemma IsSemverExactly(s: string)
    ensures IsSemver(s) <==> SemverShape(s)
  {
    hide IsSemver, ValidVersion, VersionText;
    if IsSemver(s) {
      var x := SemverParts(s);
    }
    forall x | ValidVersion(x) && s == VersionText(x) ensures IsSemver(s) {
      VersionReads(x);
    }
  }

  /** The shapes of names, told without the classifier. */
  ghost predicate CacheShape(s: string) {
    s == "buildcache" || exists n :: AllDigits(n) && s == "buildcache-v" + n
  }

  ghost predicate ProtectedShape(s: string) {
    s == "latest" || s == "dev" || s == "main" || FloatShape(s)
  }

  ghost predicate ReleaseShape(s: string) {
    SemverShape(s) || VariantReleaseShape(s)
  }

  predicate Sha(s: string) {
    |s| == 7 && forall c :: c in s ==> c in "0123456789abcdef"
  }

  ghost predicate VariantShaShape(s: string) {
    exists f, h :: FloatShape(f) && Sha(h) && s == f + "-" + h
  }

  lemma HexChars(c: char)
    ensures c in "0123456789abcdef" <==> IsDigit(c) || 'a' <= c <= 'f'
  {
    var hex := "0123456789abcdef";
    assert hex[0] == '0' && hex[1] == '1' && hex[2] == '2' && hex[3] == '3' && hex[4] == '4' && hex[5] == '5'
           && hex[6] == '6' && hex[7] == '7' && hex[8] == '8' && hex[9] == '9' && hex[10] == 'a' && hex[11] == 'b'
           && hex[12] == 'c' && hex[13] == 'd' && hex[14] == 'e' && hex[15] == 'f';
  }

  lemma ShaExactly(s: string)
    ensures IsShortSha(s) <==> Sha(s)
  {
    forall c { HexChars(c); }
  }

  lemma CacheExactly(s: string)
    ensures IsCache(s) <==> CacheShape(s)
  {
    if "buildcache-v" <= s && AllDigits(s[12..]) {
      assert s == "buildcache-v" + s[12..];
    }
    forall n | AllDigits(n) && s == "buildcache-v" + n ensures IsCache(s) {
      assert s[12..] == n;
    }
  }

  lemma VariantSplits(f: string, v: string)
    requires FloatShape(f)
    ensures VariantRest(f + "-" + v) == Some(v)
  {
    hide IndexOfChar, FloatShape;
    IsFloatExactly(f);
    FloatChars(f);
    HeadAndRest(f, '-', v);
    assert f + "-" + v == f + ['-'] + v;
  }

  lemma VariantExactly(s: string, v: string)
    ensures VariantRest(s) == Some(v) <==> exists f :: FloatShape(f) && s == f + "-" + v
  {
    hide IndexOfChar, FloatShape;
    if VariantRest(s) == Some(v) {
      var f := s[..IndexOfChar(s, '-').value];
      IsFloatExactly(f);
      assert s == f + "-" + v;
    }
    forall f | FloatShape(f) && s == f + "-" + v ensures VariantRest(s) == Some(v) {
      VariantSplits(f, v);
    }
  }

  ghost predicate VariantReleaseShape(s: string) {
    exists f, v :: FloatShape(f) && SemverShape(v) && s == f + "-" + v
  }

  lemma VariantOf(s: string)
    ensures VariantRest(s).Some? && IsSemver(VariantRest(s).value) <==> VariantReleaseShape(s)
    ensures VariantRest(s).Some? && IsShortSha(VariantRest(s).value) <==> VariantShaShape(s)
  {
    hide IsSemver, IsShortSha, FloatShape, SemverShape, VariantRest, Sha;
    if VariantRest(s).Some? {
      var v := VariantRest(s).value;
      VariantExactly(s, v);
      assert VariantRest(s) == Some(v);
      var f :| FloatShape(f) && s == f + "-" + v;
      IsSemverExactly(v);
      ShaExactly(v);
    }
    if VariantReleaseShape(s) {
      var f, v :| FloatShape(f) && SemverShape(v) && s == f + "-" + v;
      VariantSplits(f, v);
      IsSemverExactly(v);
    }
    if VariantShaShape(s) {
      var f, h :| FloatShape(f) && Sha(h) && s == f + "-" + h;
      VariantSplits(f, h);
      ShaExactly(h);
    }
  }

  /** The class of a name is the first of these shapes that it has; a name of none is unknown. */
  lemma ClassSays(s: string)
    ensures Classify(s) ==
            if s == "latest" || s == "dev" || s == "main" then KProtected
            else if CacheShape(s) then KCache
            else if FloatShape(s) then KProtected
            else if ReleaseShape(s) then KRelease
            else if Sha(s) then KShortSha
            else if VariantShaShape(s) then KVariantSha
            else KUnknown
  {
    hide IsSemver, IsShortSha, IsFloat, IsCache, FloatShape, SemverShape, VariantRest, CacheShape, Sha, VariantShaShape, VariantReleaseShape;
    CacheExactly(s);
    IsFloatExactly(s);
    IsSemverExactly(s);
    ShaExactly(s);
    VariantOf(s);
  }

  // ---------------------------------------------------------------------------
  // Numbers of versions
  // ---------------------------------------------------------------------------

  predicate Before(x: Version, y: Version)
    requires ValidVersion(x) && ValidVersion(y)
  {
    var a, b, c := DecimalValue(x.major), DecimalValue(x.minor), DecimalValue(x.patch);
    var d, e, f := DecimalValue(y.major), DecimalValue(y.minor), DecimalValue(y.patch);
    a < d || (a == d && (b < e || (b == e && c < f)))
  }

  lemma SplitOnce(a: string, c: char, b: string)
    requires c !in a
    ensures Split(a + [c] + b, c) == [a] + Split(b, c)
  {
    HeadAndRest(a, c, b);
  }

  lemma SplitNone(a: string, c: char)
    requires c !in a
    ensures Split(a, c) == [a]
  {
  }

  lemma TripleSplits(x: Version)
    requires ValidVersion(x)
    ensures Split(Triple(x), '.') == [x.major, x.minor, x.patch]
  {
    hide Split;
    NoDot(x.major);
    NoDot(x.minor);
    NoDot(x.patch);
    SplitOnce(x.major, '.', x.minor + "." + x.patch);
    SplitOnce(x.minor, '.', x.patch);
    SplitNone(x.patch, '.');
    assert Triple(x) == x.major + ['.'] + (x.minor + "." + x.patch);
    assert x.minor + "." + x.patch == x.minor + ['.'] + x.patch;
  }

  /** The numbers that versions are compared by are the three that are written; suffixes and the `v`
      do not count. */
  lemma NumbersRead(x: Version)
    requires ValidVersion(x)
    ensures ParseSemver(VersionText(x)) == [DecimalValue(x.major), DecimalValue(x.minor), DecimalValue(x.patch)]
  {
    hide IndexOfChar, Triple, IsSemver, Split, VersionText, DecimalValue;
    VersionReads(x);
    TripleText(x);
    TripleSplits(x);
    var core := Triple(x) + Tail(x);
    if x.suffix.Some? {
      HeadAndRest(Triple(x), '-', x.suffix.value);
      assert core == Triple(x) + ['-'] + x.suffix.value;
    } else {
      assert core == Triple(x);
      NoneOf(core, '-');
    }
    ThreeNumbers(x.major, x.minor, x.patch);
  }

  lemma ThreeNumbers(a: string, b: string, c: string)
    requires AllDigits(a) && AllDigits(b) && AllDigits(c)
    ensures Numbers([a, b, c]) == [DecimalValue(a), DecimalValue(b), DecimalValue(c)]
  {
    hide DecimalValue;
    assert [a, b, c][1..] == [b, c] && [b, c][1..] == [c] && [c][1..] == [];
    assert Numbers([c]) == [DecimalValue(c)];
    assert Numbers([b, c]) == [DecimalValue(b)] + Numbers([c]);
  }

  lemma ThreeCompared(a: seq<nat>, b: seq<nat>)
    requires |a| == |b| == 3
    ensures AtLeast(a, b) <==>
            a[0] > b[0] || (a[0] == b[0] && (a[1] > b[1] || (a[1] == b[1] && a[2] >= b[2])))
  {
    assert a[1..][1..] == [a[2]] && b[1..][1..] == [b[2]];
    assert [a[2]][1..] == [] && [b[2]][1..] == [];
    assert AtLeast([a[2]], [b[2]]) <==> a[2] >= b[2];
  }

  /** The later of two releases is at least the other exactly when it is not before it. */
  lemma ComparedByNumbers(x: Version, y: Version)
    requires ValidVersion(x) && ValidVersion(y)
    ensures AtLeast(ParseSemver(VersionText(x)), ParseSemver(VersionText(y))) <==> !Before(x, y)
  {
    hide DecimalValue, AtLeast, ParseSemver, ValidVersion;
    NumbersRead(x);
    NumbersRead(y);
    ThreeCompared(ParseSemver(VersionText(x)), ParseSemver(VersionText(y)));
  }

  // ---------------------------------------------------------------------------
  // What a plan decides
  // ---------------------------------------------------------------------------

  /** Every tag of the listing has its decision, and every decision is of one of them. */
  lemma PlanCovers(tags: seq<Tag>, p: Policy)
    ensures |Plan(tags, p)| == |tags|
    ensures forall t :: t in tags <==> exists d :: d in Plan(tags, p) && d.tag == t
  {
    var ordered := NewestFirst(tags);
    NewestFirstSorts(tags);
    DecideTags(ordered, p);
    assert |multiset(ordered)| == |multiset(tags)|;
    forall t ensures t in tags <==> exists d :: d in Plan(tags, p) && d.tag == t {
      assert t in tags <==> t in multiset(tags);
      assert t in ordered <==> t in multiset(ordered);
      if t in ordered {
        var i :| 0 <= i < |ordered| && ordered[i] == t;
        assert Plan(tags, p)[i] in Plan(tags, p);
      }
      if d :| d in Plan(tags, p) && d.tag == t {
        var i :| 0 <= i < |ordered| && Plan(tags, p)[i] == d;
        assert ordered[i] == t;
      }
    }
  }

  lemma DecidedAt(tags: seq<Tag>, p: Policy, d: Decision)
    requires d in Plan(tags, p)
    ensures exists i :: 0 <= i < |NewestFirst(tags)| && d == DecisionAfter(NewestFirst(tags)[..i], NewestFirst(tags)[i], p)
  {
    hide DecideOne;
    var ordered := NewestFirst(tags);
    DecideTags(ordered, p);
    var i :| 0 <= i < |ordered| && Plan(tags, p)[i] == d;
    DecideAt(ordered, p, i);
  }

  /** A build cache is deleted if and only if no registry cache is live. */
  lemma CacheDecided(tags: seq<Tag>, p: Policy, d: Decision)
    requires d in Plan(tags, p) && CacheShape(d.tag.name)
    ensures d.disposition == if p.registryCacheLive then Protected else Delete
  {
    hide Classify, NewestFirst, CacheShape;
    DecidedAt(tags, p, d);
    ClassSays(d.tag.name);
    CacheIsNoName(d.tag.name);
  }

  lemma CacheIsNoName(s: string)
    ensures CacheShape(s) ==> s != "latest" && s != "dev" && s != "main"
  {
    assert "latest"[0] != 'b' && "dev"[0] != 'b' && "main"[0] != 'b' && "buildcache-v"[0] == 'b';
  }

  ghost predicate NoShape(s: string) {
    !ProtectedShape(s) && !CacheShape(s) && !ReleaseShape(s) && !Sha(s) && !VariantShaShape(s)
  }

  /** The names in use and floating tags are protected, and a name of no known shape is left alone. */
  lemma NamesKept(tags: seq<Tag>, p: Policy, d: Decision)
    requires d in Plan(tags, p)
    ensures ProtectedShape(d.tag.name) ==> d.disposition == Protected
    ensures NoShape(d.tag.name) ==> d.disposition == Unknown
  {
    hide Classify, NewestFirst, CacheShape, FloatShape, ReleaseShape, Sha, VariantShaShape;
    DecidedAt(tags, p, d);
    ClassSays(d.tag.name);
    FloatIsNoCache(d.tag.name);
  }

  lemma FloatIsNoCache(s: string)
    ensures FloatShape(s) ==> !CacheShape(s)
  {
    hide IsFloat, IsCache;
    IsFloatExactly(s);
    CacheExactly(s);
    if IsFloat(s) {
      FloatChars(s);
      NotACache(s);
    }
  }

  /** A release as it is tagged: a version, or one built on a floating tag. */
  ghost predicate ReleaseOf(name: string, x: Version) {
    && ValidVersion(x)
    && (name == VersionText(x) || exists f :: FloatShape(f) && name == f + "-" + VersionText(x))
  }

  lemma ReleaseReads(name: string, x: Version)
    requires ReleaseOf(name, x)
    ensures ReleaseCore(name) == VersionText(x)
  {
    hide IsSemver, IsFloat, ValidVersion, VersionText, FloatShape, ReleaseCore;
    VersionReads(x);
    if name == VersionText(x) {
      FloatText("1", "0");
      ReleaseCoreOfVariant("1" + "." + "0", name);
    } else {
      var f :| FloatShape(f) && name == f + "-" + VersionText(x);
      IsFloatExactly(f);
      ReleaseCoreOfVariant(f, VersionText(x));
    }
  }

  lemma ReleaseIsRelease(name: string, x: Version)
    requires ReleaseOf(name, x)
    ensures Classify(name) == KRelease
  {
    hide IsSemver, IsFloat, ValidVersion, VersionText, FloatShape, CacheShape;
    VersionReads(x);
    IsSemverExactly(VersionText(x));
    ClassSays(name);
    if name == VersionText(x) {
      ReleaseIsOther(name);
    } else {
      var f :| FloatShape(f) && name == f + "-" + VersionText(x);
      VariantIsOther(f, VersionText(x));
    }
  }

  lemma ReleaseIsOther(name: string)
    requires IsSemver(name)
    ensures name != "latest" && name != "dev" && name != "main" && !CacheShape(name) && !FloatShape(name)
  {
    hide IsFloat, IsCache;
    CacheExactly(name);
    IsFloatExactly(name);
    SemverStart(name);
    NotACache(name);
    assert "latest"[0] == 'l' && "dev"[0] == 'd' && "main"[0] == 'm';
    FloatIsNoVersion(name);
  }

  lemma FloatIsNoVersion(s: string)
    ensures IsFloat(s) ==> !IsSemver(s)
  {
    if IsFloat(s) {
      FloatChars(s);
      FloatHasOneDot(s, 0);
      assert s[0..] == s;
      NoneOf(s, '-');
    }
  }

  lemma VariantIsOther(f: string, v: string)
    requires FloatShape(f)
    ensures var name := f + "-" + v;
            name != "latest" && name != "dev" && name != "main" && !CacheShape(name) && !FloatShape(name)
  {
    hide IsFloat, IsCache, FloatShape;
    var name := f + "-" + v;
    IsFloatExactly(f);
    IsFloatExactly(name);
    CacheExactly(name);
    FloatChars(f);
    assert name[0] == f[0] && name[|f|] == '-';
    assert '-' in name;
    NotACache(name);
    assert "latest"[0] == 'l' && "dev"[0] == 'd' && "main"[0] == 'm';
    if IsFloat(name) { FloatChars(name); }
  }

  /** A release is deleted if and only if releases are included and it comes before the latest one;
      the variants, the suffixes and the leading `v` of either make no difference. */
  lemma ReleaseDecided(tags: seq<Tag>, p: Policy, d: Decision, x: Version, latest: string, y: Version)
    requires d in Plan(tags, p) && ReleaseOf(d.tag.name, x)
    requires p.latestRelease == Some(latest) && ReleaseOf(latest, y)
    ensures d.disposition == if p.includeReleaseTags && Before(x, y) then DeleteRelease else Protected
  {
    hide Classify, NewestFirst, ReleaseOf, ValidVersion, Before, IsSemver, ReleaseCore, AtLeast, ParseSemver, VersionText;
    DecidedAt(tags, p, d);
    ReleaseIsRelease(d.tag.name, x);
    ReleaseReads(d.tag.name, x);
    ReleaseReads(latest, y);
    ReleaseIsVersion(latest, y);
    ReleaseIsVersion(d.tag.name, x);
    ComparedByNumbers(x, y);
  }

  lemma ReleaseIsVersion(name: string, x: Version)
    requires ReleaseOf(name, x)
    ensures ValidVersion(x) && IsSemver(VersionText(x)) && name != ""
  {
    VersionReads(x);
    TripleText(x);
  }

  /** Without a latest release, or with one that names no version, no release is deleted. */
  lemma ReleaseHeld(tags: seq<Tag>, p: Policy, d: Decision, x: Version)
    requires d in Plan(tags, p) && ReleaseOf(d.tag.name, x)
    requires p.latestRelease.None? || p.latestRelease.value == "" || !SemverShape(ReleaseCore(p.latestRelease.value))
    ensures d.disposition == Protected
  {
    hide Classify, NewestFirst, SemverShape, IsSemver, ReleaseCore, ReleaseOf, ParseSemver, AtLeast;
    DecidedAt(tags, p, d);
    ReleaseIsRelease(d.tag.name, x);
    if p.latestRelease.Some? { IsSemverExactly(ReleaseCore(p.latestRelease.value)); }
  }

  lemma ShaIsOther(s: string)
    requires Sha(s)
    ensures s != "latest" && s != "dev" && s != "main" && !CacheShape(s) && !FloatShape(s) && !ReleaseShape(s)
  {
    hide IsFloat, IsSemver;
    ShaHasNone(s);
    IsFloatExactly(s);
    IsSemverExactly(s);
    CacheIsLong(s);
    VariantHasDash(s);
    FloatHasDot(s);
    SemverHasDot(s);
  }

  lemma CacheIsLong(s: string)
    ensures CacheShape(s) ==> |s| >= 10
  {
    assert |"buildcache"| == 10 && |"buildcache-v"| == 12;
  }

  lemma VariantHasDash(s: string)
    ensures VariantReleaseShape(s) ==> '-' in s
  {
    forall f, v | FloatShape(f) && SemverShape(v) && s == f + "-" + v ensures '-' in s {
      assert s[|f|] == '-';
    }
  }

  lemma ShaHasNone(s: string)
    requires Sha(s)
    ensures '-' !in s && '.' !in s && |s| == 7
  {
    assert '-' !in "0123456789abcdef" && '.' !in "0123456789abcdef";
  }

  lemma FloatHasDot(s: string)
    ensures IsFloat(s) ==> '.' in s
  {
  }

  lemma SemverHasDot(s: string)
    ensures IsSemver(s) ==> '.' in s
  {
    if IsSemver(s) {
      var x := SemverParts(s);
      var n := (if x.v then 1 else 0) + |x.major|;
      assert s == (if x.v then "v" else "") + (x.major + "." + (x.minor + "." + x.patch) + Tail(x));
      assert s[n] == '.';
    }
  }

  lemma VariantShaIsOther(s: string)
    requires VariantShaShape(s)
    ensures s != "latest" && s != "dev" && s != "main" && !CacheShape(s) && !FloatShape(s) && !ReleaseShape(s) && !Sha(s)
  {
    hide IsFloat, IsSemver, FloatShape, Sha;
    var f, h :| FloatShape(f) && Sha(h) && s == f + "-" + h;
    VariantIsOther(f, h);
    ShaHasNone(h);
    assert s[|f|] == '-';
    DashIsNoSha(s);
    VariantSplits(f, h);
    VariantOf(s);
    SemverHasDot(h);
    IsSemverExactly(s);
    FloatNotVersion(f, h);
  }

  lemma DashIsNoSha(s: string)
    ensures '-' in s ==> !Sha(s)
  {
    assert '-' !in "0123456789abcdef";
  }

  lemma FloatNotVersion(f: string, h: string)
    requires FloatShape(f)
    ensures !IsSemver(f + "-" + h)
  {
    IsFloatExactly(f);
    NotAVersionYet(f, h, 0);
    assert f[0..] == f;
  }

  /** Seven hexadecimal digits are a build's own tag, with a floating prefix a variant's. */
  lemma ShaClass(s: string)
    ensures Sha(s) ==> Classify(s) == KShortSha
    ensures VariantShaShape(s) ==> Classify(s) == KVariantSha
  {
    hide Classify, CacheShape, FloatShape, ReleaseShape, Sha, VariantShaShape;
    ClassSays(s);
    if Sha(s) { ShaIsOther(s); }
    if VariantShaShape(s) { VariantShaIsOther(s); }
  }

  /** Builds' own tags are kept while fewer than the floor of their class are newer, or while they are
      young enough; the floors of the two classes are their own. */
  lemma BuildDecided(tags: seq<Tag>, p: Policy, i: nat)
    requires i < |Plan(tags, p)|
    requires Sha(Plan(tags, p)[i].tag.name) || VariantShaShape(Plan(tags, p)[i].tag.name)
    ensures i < |NewestFirst(tags)| && Plan(tags, p)[i].tag == NewestFirst(tags)[i]
    ensures var t := Plan(tags, p)[i].tag;
            var newer := NewestFirst(tags)[..i];
            var floored := if Sha(t.name) then Count(newer, KShortSha) < p.keepNewest
                           else Count(newer, KVariantSha) < p.keepNewestVariant;
            Plan(tags, p)[i].disposition ==
              if floored then Newest
              else if p.now - t.pushed <= p.maxAgeDays * 86_400_000_000 then Recent
              else Delete
  {
    hide Classify, Count, Sha, VariantShaShape;
    var ordered := NewestFirst(tags);
    DecideTags(ordered, p);
    DecideAt(ordered, p, i);
    ShaClass(ordered[i].name);
  }
}
