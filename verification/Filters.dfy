/** Event filters: dotted field paths and the operators applied to what they name. */
module Filters {
  import opened Wrappers
  import opened Text

  /** A JSON value; a number is held as the text it is compared by. */
  datatype Json =
    | Null
    | Str(text: string)
    | Bool(flag: bool)
    | Num(text: string)
    | Arr(items: seq<Json>)
    | Obj(fields: map<string, Json>)

  datatype Filter = Filter(field: string, op: string, value: string, values: seq<string>)

  /** What the libraries supply: how a nested array or object prints, and regular expressions. */
  datatype Library = Library(shown: Json -> string, regex: (string, string) -> bool)

  const NOT_CONTAINS := {"not-contains", "contains not"}
  const NOT_IN := {"not-in", "not in"}

  // ---- Paths ----

  function Walk(current: Json, parts: seq<string>): Option<Json> {
    if parts == [] then Some(current)
    else if current.Obj? && parts[0] in current.fields then Walk(current.fields[parts[0]], parts[1..])
    else None
  }

  function Resolve(payload: Json, field: string): Option<Json> {
    Walk(payload, Split(field, '.'))
  }

  method ResolveField(payload: Json, field: string) returns (r: Option<Json>)
    ensures r == Resolve(payload, field)
  {
    var parts := Split(field, '.');
    var current := payload;
    var i := 0;
    while i < |parts|
      invariant 0 <= i <= |parts|
      invariant Walk(payload, parts) == Walk(current, parts[i..])
    {
      if !current.Obj? || parts[i] !in current.fields {
        return None;
      }
      current := current.fields[parts[i]];
      i := i + 1;
    }
    return Some(current);
  }

  // ---- One filter ----

  function Stringify(v: Json, lib: Library): string {
    match v
    case Null => ""
    case Str(s) => s
    case Bool(b) => if b then "true" else "false"
    case Num(s) => s
    case _ => lib.shown(v)
  }

  predicate SomeEqual(items: seq<Json>, value: string, lib: Library) {
    exists i :: 0 <= i < |items| && Stringify(items[i], lib) == value
  }

  predicate SomeListed(items: seq<Json>, values: seq<string>, lib: Library) {
    exists i :: 0 <= i < |items| && Stringify(items[i], lib) in values
  }

  predicate HoldsOfArray(items: seq<Json>, f: Filter, lib: Library) {
    if f.op == "contains" then SomeEqual(items, f.value, lib)
    else if f.op in NOT_CONTAINS then !SomeEqual(items, f.value, lib)
    else if f.op == "in" then SomeListed(items, f.values, lib)
    else if f.op in NOT_IN then !SomeListed(items, f.values, lib)
    else f.op == "eq" && |items| == 1 && Stringify(items[0], lib) == f.value
  }

  predicate HoldsOfNull(f: Filter) {
    if f.op == "eq" then f.value == "" || f.value == "null"
    else if f.op == "neq" then f.value != "" && f.value != "null"
    else f.op in NOT_CONTAINS + NOT_IN
  }

  predicate Suffix(p: string, s: string) {
    |p| <= |s| && s[|s| - |p|..] == p
  }

  predicate HoldsOfText(s: string, f: Filter, lib: Library) {
    if f.op == "eq" then s == f.value
    else if f.op == "neq" then s != f.value
    else if f.op == "prefix" then f.value <= s
    else if f.op == "suffix" then Suffix(f.value, s)
    else if f.op == "contains" then IndexOf(s, f.value).Some?
    else if f.op in NOT_CONTAINS then IndexOf(s, f.value).None?
    else if f.op == "in" then s in f.values
    else if f.op in NOT_IN then s !in f.values
    else f.op == "regex" && lib.regex(f.value, s)
  }

  predicate HoldsOf(v: Json, f: Filter, lib: Library) {
    match v
    case Null => HoldsOfNull(f)
    case Arr(items) => HoldsOfArray(items, f, lib)
    case Obj(_) => false
    case _ => HoldsOfText(Stringify(v, lib), f, lib)
  }

  predicate Holds(payload: Json, f: Filter, lib: Library) {
    var v := Resolve(payload, f.field);
    v.Some? && HoldsOf(v.value, f, lib)
  }

  method AnyEqual(items: seq<Json>, value: string, lib: Library) returns (found: bool)
    ensures found == SomeEqual(items, value, lib)
  {
    for i := 0 to |items|
      invariant !SomeEqual(items[..i], value, lib)
    {
      if Stringify(items[i], lib) == value {
        return true;
      }
    }
    assert items[..|items|] == items;
    return false;
  }

  method AnyListed(items: seq<Json>, values: seq<string>, lib: Library) returns (found: bool)
    ensures found == SomeListed(items, values, lib)
  {
    for i := 0 to |items|
      invariant !SomeListed(items[..i], values, lib)
    {
      var text := Stringify(items[i], lib);
      for j := 0 to |values|
        invariant text !in values[..j]
      {
        if text == values[j] {
          return true;
        }
      }
      assert values[..|values|] == values;
    }
    assert items[..|items|] == items;
    return false;
  }

  method Match(f: Filter, payload: Json, lib: Library) returns (r: bool)
    ensures r == Holds(payload, f, lib)
  {
    var val := ResolveField(payload, f.field);
    if val.None? {
      return false;
    }
    var v := val.value;
    if v.Null? {
      return HoldsOfNull(f);
    }
    if v.Arr? {
      var arr := v.items;
      if f.op == "contains" {
        r := AnyEqual(arr, f.value, lib);
      } else if f.op in NOT_CONTAINS {
        r := AnyEqual(arr, f.value, lib);
        r := !r;
      } else if f.op == "in" {
        r := AnyListed(arr, f.values, lib);
      } else if f.op in NOT_IN {
        r := AnyListed(arr, f.values, lib);
        r := !r;
      } else {
        r := f.op == "eq" && |arr| == 1 && Stringify(arr[0], lib) == f.value;
      }
      return;
    }
    if v.Obj? {
      return false;
    }
    return HoldsOfText(Stringify(v, lib), f, lib);
  }

  method MatchFilters(filters: seq<Filter>, payload: Json, lib: Library) returns (r: bool)
    ensures r <==> forall f :: f in filters ==> Holds(payload, f, lib)
  {
    for i := 0 to |filters|
      invariant forall j :: 0 <= j < i ==> Holds(payload, filters[j], lib)
    {
      var ok := Match(filters[i], payload, lib);
      if !ok {
        return false;
      }
    }
    return true;
  }

  // ---- What the operators mean together ----

  datatype Pair = Equality | Containment | Membership

  function Yes(p: Pair): string {
    match p case Equality => "eq" case Containment => "contains" case Membership => "in"
  }

  predicate IsNo(p: Pair, op: string) {
    match p
    case Equality => op == "neq"
    case Containment => op in NOT_CONTAINS
    case Membership => op in NOT_IN
  }

  /** The values of which a filter of the pair or its negation holds: no object, and for equality no
      array but the one whose only item is the value looked for. */
  predicate Negatable(v: Json, f: Filter, p: Pair, lib: Library) {
    && !v.Obj?
    && (p.Equality? && v.Arr? ==> |v.items| == 1 && Stringify(v.items[0], lib) == f.value)
  }

  lemma OneOfTheTwo(v: Json, f: Filter, p: Pair, g: Filter, lib: Library)
    requires f.op == Yes(p) && IsNo(p, g.op) && g == f.(op := g.op)
    ensures HoldsOf(v, f, lib) != HoldsOf(v, g, lib) <==> Negatable(v, f, p, lib)
  {
  }

  /** Of a filter and its negation exactly one holds, for every payload, exactly when the path leads
      to a negatable value. */
  lemma OneOfTheTwoExactlyWhen(payload: Json, f: Filter, p: Pair, no: string, lib: Library)
    requires f.op == Yes(p) && IsNo(p, no)
    ensures Holds(payload, f, lib) != Holds(payload, f.(op := no), lib) <==>
            var v := Resolve(payload, f.field);
            v.Some? && Negatable(v.value, f, p, lib)
  {
    var g := f.(op := no);
    assert g.field == f.field && g.value == f.value && g.values == f.values;
    if Resolve(payload, f.field).Some? {
      OneOfTheTwo(Resolve(payload, f.field).value, f, p, g, lib);
    }
  }

  /** No value satisfies a filter and its negation. */
  lemma NeverBoth(payload: Json, f: Filter, p: Pair, no: string, lib: Library)
    requires f.op == Yes(p) && IsNo(p, no)
    ensures !(Holds(payload, f, lib) && Holds(payload, f.(op := no), lib))
  {
    OneOfTheTwoExactlyWhen(payload, f, p, no, lib);
  }

  /** Equality implies containment, except for null, which equals but never contains. */
  lemma EqualImpliesContains(payload: Json, f: Filter, lib: Library)
    requires f.op == "eq" && Holds(payload, f, lib)
    ensures Holds(payload, f.(op := "contains"), lib) <==> Resolve(payload, f.field) != Some(Null)
  {
    var v := Resolve(payload, f.field).value;
    if !v.Null? && !v.Arr? {
      assert OccursAt(f.value, f.value, 0);
    }
  }

  /** The payload {"a": null}: its field equals the empty text and does not contain it. */
  lemma NullEqualsWithoutContaining(lib: Library)
    ensures var payload, f := Obj(map["a" := Null]), Filter("a", "eq", "", []);
            Holds(payload, f, lib) && !Holds(payload, f.(op := "contains"), lib)
  {
    NoSplit("a", '.');
    var payload := Obj(map["a" := Null]);
    assert Walk(payload, ["a"]) == Walk(Null, ["a"][1..]) == Some(Null);
    assert Resolve(payload, "a") == Some(Null);
  }

  lemma {:induction false} WalkAppend(current: Json, parts: seq<string>, more: seq<string>)
    ensures Walk(current, parts + more) ==
            (var v := Walk(current, parts); if v.None? then None else Walk(v.value, more))
  {
    if parts == [] {
      assert parts + more == more;
    } else {
      assert (parts + more)[1..] == parts[1..] + more;
      if current.Obj? && parts[0] in current.fields {
        WalkAppend(current.fields[parts[0]], parts[1..], more);
      }
    }
  }

  lemma SplitAt(s: string, sep: char, i: nat)
    requires i < |s| && s[i] == sep && sep !in s[..i]
    ensures Split(s, sep) == [s[..i]] + Split(s[i + 1..], sep)
  {
    IndexOfCharUnique(s, sep, i);
  }

  lemma NoSplit(s: string, sep: char)
    requires sep !in s
    ensures Split(s, sep) == [s]
  {
  }

  lemma {:induction false} SplitAppend(a: string, b: string, sep: char)
    ensures Split(a + ([sep] + b), sep) == Split(a, sep) + Split(b, sep)
    decreases |a|
  {
    hide Split, IndexOfChar;
    var s := a + ([sep] + b);
    var at := IndexOfChar(a, sep);
    if at.None? {
      NoSplit(a, sep);
      assert s[..|a|] == a && s[|a| + 1..] == b;
      SplitAt(s, sep, |a|);
    } else {
      var i := at.value;
      var rest := a[i + 1..];
      assert s[..i] == a[..i];
      assert s[i + 1..] == rest + ([sep] + b);
      SplitAt(s, sep, i);
      SplitAt(a, sep, i);
      SplitAppend(rest, b, sep);
    }
  }

  /** A dotted path is resolved one part after the other, in any grouping. */
  lemma PathsCompose(payload: Json, a: string, b: string)
    ensures Resolve(payload, a + "." + b) ==
            (var v := Resolve(payload, a); if v.None? then None else Resolve(v.value, b))
  {
    SplitAppend(a, b, '.');
    assert a + "." + b == a + (['.'] + b);
    WalkAppend(payload, Split(a, '.'), Split(b, '.'));
  }

  // ---- What each operator says ----

  /** How a scalar is compared: a text as it is, a truth value and a number as they print. */
  lemma TextsCompared(lib: Library)
    ensures Stringify(Bool(true), lib) == "true" && Stringify(Bool(false), lib) == "false"
    ensures Stringify(Null, lib) == ""
    ensures forall s :: Stringify(Str(s), lib) == s && Stringify(Num(s), lib) == s
  {
  }

  predicate Scalar(v: Json) {
    v.Str? || v.Bool? || v.Num?
  }

  /** The operators on a scalar, told by taking its text apart; another operator never holds. */
  lemma ScalarSays(payload: Json, f: Filter, v: Json, lib: Library)
    requires Resolve(payload, f.field) == Some(v) && Scalar(v)
    ensures var s := Stringify(v, lib);
            match f.op
            case "eq" => Holds(payload, f, lib) <==> s == f.value
            case "neq" => Holds(payload, f, lib) <==> s != f.value
            case "prefix" => Holds(payload, f, lib) <==> exists rest :: s == f.value + rest
            case "suffix" => Holds(payload, f, lib) <==> exists rest :: s == rest + f.value
            case "contains" => Holds(payload, f, lib) <==> exists a, b :: s == a + f.value + b
            case "in" => Holds(payload, f, lib) <==> s in f.values
            case "regex" => Holds(payload, f, lib) <==> lib.regex(f.value, s)
            case _ => f.op !in NOT_CONTAINS + NOT_IN ==> !Holds(payload, f, lib)
  {
    var s := Stringify(v, lib);
    PrefixSays(s, f.value);
    SuffixSays(s, f.value);
    ContainsSays(s, f.value);
  }

  lemma PrefixSays(s: string, p: string)
    ensures p <= s <==> exists rest :: s == p + rest
  {
    if p <= s { assert s == p + s[|p|..]; }
  }

  lemma SuffixSays(s: string, p: string)
    ensures Suffix(p, s) <==> exists rest :: s == rest + p
  {
    if Suffix(p, s) { assert s == s[..|s| - |p|] + p; }
    forall rest | s == rest + p ensures Suffix(p, s) {
      assert s[|s| - |p|..] == p;
    }
  }

  lemma ContainsSays(s: string, p: string)
    ensures IndexOf(s, p).Some? <==> exists a, b :: s == a + p + b
  {
    if IndexOf(s, p).Some? {
      var i := IndexOf(s, p).value;
      assert forall k :: 0 <= k < |p| ==> s[i + k] == p[k];
      assert s == s[..i] + p + s[i + |p|..];
    }
    forall a, b | s == a + p + b ensures IndexOf(s, p).Some? {
      assert OccursAt(s, p, |a|);
    }
  }

  /** The operators on an array, item by item; equality is for an array of one. */
  lemma ArraySays(payload: Json, f: Filter, items: seq<Json>, lib: Library)
    requires Resolve(payload, f.field) == Some(Arr(items))
    ensures match f.op
            case "contains" => Holds(payload, f, lib) <==> exists v :: v in items && Stringify(v, lib) == f.value
            case "in" => Holds(payload, f, lib) <==> exists v :: v in items && Stringify(v, lib) in f.values
            case "eq" => Holds(payload, f, lib) <==> |items| == 1 && Stringify(items[0], lib) == f.value
            case _ => f.op !in NOT_CONTAINS + NOT_IN ==> !Holds(payload, f, lib)
  {
    forall v | v in items
      ensures Stringify(v, lib) == f.value ==> SomeEqual(items, f.value, lib)
      ensures Stringify(v, lib) in f.values ==> SomeListed(items, f.values, lib)
    {
      var i :| 0 <= i < |items| && items[i] == v;
    }
    if SomeEqual(items, f.value, lib) {
      var i :| 0 <= i < |items| && Stringify(items[i], lib) == f.value;
      assert items[i] in items;
    }
    if SomeListed(items, f.values, lib) {
      var i :| 0 <= i < |items| && Stringify(items[i], lib) in f.values;
      assert items[i] in items;
    }
  }

  /** Null equals the empty text and "null", and is in nothing; a path that leads nowhere or to an
      object satisfies no operator. */
  lemma OthersSay(payload: Json, f: Filter, lib: Library)
    ensures var v := Resolve(payload, f.field);
            && (v.None? || v.value.Obj? ==> !Holds(payload, f, lib))
            && (v == Some(Null) ==>
                  && (f.op == "eq" ==> (Holds(payload, f, lib) <==> f.value == "" || f.value == "null"))
                  && (f.op in {"contains", "in", "prefix", "suffix", "regex"} ==> !Holds(payload, f, lib)))
  {
  }
}
