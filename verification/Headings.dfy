/** Identifiers for the headings of a documentation page. */
module Headings {
  import opened Wrappers
  import opened Text

  datatype Token = Heading(depth: int, text: string) | Other

  datatype TocEntry = TocEntry(level: int, text: string, id: string)

  predicate Listed(t: Token) {
    t.Heading? && 2 <= t.depth <= 3
  }

  /** The headings the table of contents shows, in document order. */
  function Outline(tokens: seq<Token>): (outline: seq<Token>)
    ensures forall i :: 0 <= i < |outline| ==> Listed(outline[i])
  {
    if tokens == [] then []
    else
      var n := |tokens| - 1;
      Outline(tokens[..n]) + if Listed(tokens[n]) then [tokens[n]] else []
  }

  function Suffixed(slug: string, n: nat): string {
    slug + "-" + Decimal(n)
  }

  ghost function Ids(entries: seq<TocEntry>): set<string> {
    set e <- entries :: e.id
  }

  /** The identifier a slug gets after some are in use: itself, or else its least free suffix. */
  ghost predicate IsIdFor(used: set<string>, slug: string, id: string) {
    if slug !in used then id == slug
    else exists n :: IsLeastFree(used, slug, n) && id == Suffixed(slug, n)
  }

  ghost predicate IsLeastFree(used: set<string>, slug: string, n: nat) {
    && n >= 2 && Suffixed(slug, n) !in used
    && forall m :: 2 <= m < n ==> Suffixed(slug, m) in used
  }

  /** An entry is the one due to a heading after those before it. */
  ghost predicate IsEntry(t: Token, plain: string -> string, slugify: string -> string,
                          before: seq<TocEntry>, e: TocEntry)
    requires Listed(t)
  {
    && e.level == t.depth && e.text == plain(t.text)
    && IsIdFor(Ids(before), slugify(e.text), e.id)
  }

  /** Every listed heading has its entry, in order, with the identifier due to it. */
  ghost predicate IsToc(tokens: seq<Token>, plain: string -> string, slugify: string -> string,
                        entries: seq<TocEntry>)
  {
    var outline := Outline(tokens);
    && |entries| == |outline|
    && forall i :: 0 <= i < |entries| ==> IsEntry(outline[i], plain, slugify, entries[..i], entries[i])
  }

  lemma SuffixDiffers(slug: string, m: nat, n: nat)
    requires m != n
    ensures Suffixed(slug, m) != Suffixed(slug, n)
  {
    var k := |slug| + 1;
    assert Suffixed(slug, m)[k..] == Decimal(m) && Suffixed(slug, n)[k..] == Decimal(n);
    DecimalRoundTrip(m);
    DecimalRoundTrip(n);
  }

  /** The suffixes from 2 up to n - 1 are n - 2 different texts. */
  lemma {:induction false} Tried(slug: string, n: nat) returns (tried: set<string>)
    requires n >= 2
    ensures |tried| == n - 2
    ensures forall s :: s in tried <==> exists m :: 2 <= m < n && s == Suffixed(slug, m)
  {
    tried := {};
    if n > 2 {
      var before := Tried(slug, n - 1);
      forall m: nat | m != n - 1 ensures Suffixed(slug, m) != Suffixed(slug, n - 1) {
        SuffixDiffers(slug, m, n - 1);
      }
      assert Suffixed(slug, n - 1) !in before;
      tried := before + {Suffixed(slug, n - 1)};
    }
  }

  /** When every suffix below n is in use there are at least n - 2 identifiers in use. */
  lemma Pigeonhole(used: set<string>, slug: string, n: nat)
    requires n >= 2 && forall m :: 2 <= m < n ==> Suffixed(slug, m) in used
    ensures n - 2 <= |used|
  {
    var tried := Tried(slug, n);
    SubsetSize(tried, used);
  }

  method FreeId(seen: set<string>, slug: string) returns (id: string)
    ensures IsIdFor(seen, slug, id)
  {
    id := slug;
    if id in seen {
      var n := 2;
      while Suffixed(id, n) in seen
        invariant n >= 2 && forall m :: 2 <= m < n ==> Suffixed(id, m) in seen
        decreases |seen| + 2 - n
      {
        Pigeonhole(seen, id, n + 1);
        n := n + 1;
      }
      assert IsLeastFree(seen, slug, n);
      id := Suffixed(id, n);
    }
  }

  /** `plain` drops the inline markup of a heading, `slugify` is the slug of what is left. */
  method ParseHeadings(tokens: seq<Token>, plain: string -> string, slugify: string -> string)
    returns (entries: seq<TocEntry>)
    ensures IsToc(tokens, plain, slugify, entries)
  {
    entries := [];
    var seen: set<string> := {};
    var i := 0;
    while i < |tokens|
      invariant 0 <= i <= |tokens|
      invariant seen == Ids(entries)
      invariant IsToc(tokens[..i], plain, slugify, entries)
    {
      assert tokens[..i + 1][..i] == tokens[..i];
      if Listed(tokens[i]) {
        var text := plain(tokens[i].text);
        var id := FreeId(seen, slugify(text));
        var entry := TocEntry(tokens[i].depth, text, id);
        Extended(tokens[..i + 1], plain, slugify, entries, entry);
        IdsSnoc(entries, entry);
        entries := entries + [entry];
        seen := seen + {id};
      }
      i := i + 1;
    }
    assert tokens[..i] == tokens;
  }

  lemma Extended(tokens: seq<Token>, plain: string -> string, slugify: string -> string,
                 was: seq<TocEntry>, e: TocEntry)
    requires tokens != [] && Listed(tokens[|tokens| - 1])
    requires IsToc(tokens[..|tokens| - 1], plain, slugify, was)
    requires IsEntry(tokens[|tokens| - 1], plain, slugify, was, e)
    ensures IsToc(tokens, plain, slugify, was + [e])
  {
    hide IsEntry;
    var now := was + [e];
    forall i | 0 <= i < |now|
      ensures IsEntry(Outline(tokens)[i], plain, slugify, now[..i], now[i])
    {
      assert now[..i] == was[..i];
      assert i == |was| ==> was[..i] == was;
    }
  }

  lemma IdsSnoc(was: seq<TocEntry>, e: TocEntry)
    ensures Ids(was + [e]) == Ids(was) + {e.id}
  {
  }

  lemma NewIdIsFree(used: set<string>, slug: string, id: string)
    requires IsIdFor(used, slug, id)
    ensures id !in used
  {
  }

  /** No two headings of a page share an identifier. */
  lemma IdsDiffer(tokens: seq<Token>, plain: string -> string, slugify: string -> string,
                  entries: seq<TocEntry>)
    requires IsToc(tokens, plain, slugify, entries)
    ensures forall i, j :: 0 <= i < j < |entries| ==> entries[i].id != entries[j].id
  {
    forall i, j | 0 <= i < j < |entries| ensures entries[i].id != entries[j].id {
      assert entries[..j][i] == entries[i];
      NewIdIsFree(Ids(entries[..j]), slugify(entries[j].text), entries[j].id);
    }
  }

  lemma IdForUnique(used: set<string>, slug: string, a: string, b: string)
    requires IsIdFor(used, slug, a) && IsIdFor(used, slug, b)
    ensures a == b
  {
    if slug in used {
      var m: nat :| IsLeastFree(used, slug, m) && a == Suffixed(slug, m);
      var n: nat :| IsLeastFree(used, slug, n) && b == Suffixed(slug, n);
      assert !(m < n) && !(n < m);
    }
  }

  lemma SameNext(tokens: seq<Token>, plain: string -> string, slugify: string -> string,
                 a: seq<TocEntry>, b: seq<TocEntry>, k: nat)
    requires IsToc(tokens, plain, slugify, a) && IsToc(tokens, plain, slugify, b)
    requires k < |a| && a[..k] == b[..k]
    ensures a[k] == b[k]
  {
    IdForUnique(Ids(a[..k]), slugify(a[k].text), a[k].id, b[k].id);
  }

  /** A page has one table of contents. */
  lemma {:induction false} TocUnique(tokens: seq<Token>, plain: string -> string, slugify: string -> string,
                                     a: seq<TocEntry>, b: seq<TocEntry>, k: nat)
    requires IsToc(tokens, plain, slugify, a) && IsToc(tokens, plain, slugify, b)
    requires k <= |a| && k <= |b|
    ensures a[..k] == b[..k]
  {
    hide IsToc;
    if k > 0 {
      TocUnique(tokens, plain, slugify, a, b, k - 1);
      SameNext(tokens, plain, slugify, a, b, k - 1);
      assert a[..k] == a[..k - 1] + [a[k - 1]] && b[..k] == b[..k - 1] + [b[k - 1]];
    }
  }

  lemma {:induction false} OutlineAppend(tokens: seq<Token>, more: seq<Token>)
    ensures Outline(tokens) <= Outline(tokens + more)
  {
    if more == [] {
      assert tokens + more == tokens;
    } else {
      var n := |more| - 1;
      OutlineAppend(tokens, more[..n]);
      assert (tokens + more)[..|tokens + more| - 1] == tokens + more[..n];
    }
  }

  /** Text appended to a page never changes the identifiers of the headings already there. */
  lemma IdsAreStable(tokens: seq<Token>, more: seq<Token>, plain: string -> string, slugify: string -> string,
                     short: seq<TocEntry>, long: seq<TocEntry>)
    requires IsToc(tokens, plain, slugify, short) && IsToc(tokens + more, plain, slugify, long)
    ensures short <= long
  {
    OutlineAppend(tokens, more);
    var head := long[..|short|];
    forall i | 0 <= i < |head| ensures head[..i] == long[..i] && head[i] == long[i] {
    }
    assert IsToc(tokens, plain, slugify, head);
    TocUnique(tokens, plain, slugify, short, head, |short|);
    assert short[..|short|] == short && head[..|short|] == head;
  }

  /** The table lists exactly the headings of the second and third level, and what is appended to a
      page comes after what was there. */
  lemma {:induction false} OutlineMeans(tokens: seq<Token>, more: Token)
    ensures forall t :: t in Outline(tokens) <==> t in tokens && t.Heading? && (t.depth == 2 || t.depth == 3)
    ensures Outline(tokens + [more]) ==
            Outline(tokens) + if more.Heading? && (more.depth == 2 || more.depth == 3) then [more] else []
  {
    assert (tokens + [more])[..|tokens|] == tokens;
    if tokens != [] {
      var n := |tokens| - 1;
      OutlineMeans(tokens[..n], more);
      assert tokens == tokens[..n] + [tokens[n]];
    }
  }

  /** Three headings of the same slug: the second and the third are numbered. */
  lemma ThreeAlike()
    ensures IsIdFor({}, "setup", "setup")
    ensures IsIdFor({"setup"}, "setup", "setup-2")
    ensures IsIdFor({"setup", "setup-2"}, "setup", "setup-3")
  {
    assert Suffixed("setup", 2) == "setup-2" && Suffixed("setup", 3) == "setup-3";
    assert IsLeastFree({"setup"}, "setup", 2) && IsLeastFree({"setup", "setup-2"}, "setup", 3);
  }
}
