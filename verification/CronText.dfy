/** What the fields of a cron expression say, told without the parser: the items a user writes, and the
    values they run through. */
module CronText {
  import opened Wrappers
  import opened Text
  import opened Cron

  datatype Span = All | One(a: nat) | Dash(a: nat, b: nat)

  /** One comma-separated part of a field, as a user thinks of it. */
  datatype Item = Item(span: Span, step: Option<nat>)

  function SpanText(s: Span): string {
    match s
    case All => "*"
    case One(a) => Decimal(a)
    case Dash(a, b) => Decimal(a) + "-" + Decimal(b)
  }

  function ItemText(i: Item): string {
    SpanText(i.span) + (if i.step.Some? then "/" + Decimal(i.step.value) else "")
  }

  function First(i: Item, min: int): int {
    match i.span case All => min case One(a) => a case Dash(a, _) => a
  }

  function Last(i: Item, max: int): int {
    match i.span case All => max case One(a) => a case Dash(_, b) => b
  }

  /** The numbers an item writes fit a machine integer. */
  predicate Machine(i: Item) {
    && (i.span.One? ==> i.span.a <= MAX_INT)
    && (i.span.Dash? ==> i.span.a <= MAX_INT && i.span.b <= MAX_INT)
    && (i.step.Some? ==> i.step.value <= MAX_INT)
  }

  /** An item the field allows: in order, within bounds, and with a step that is not zero. */
  predicate Allowed(i: Item, min: int, max: int) {
    min <= First(i, min) <= Last(i, max) <= max && i.step != Some(0)
  }

  predicate StepFits(i: Item, min: int) {
    First(i, min) + i.step.GetOr(1) <= MAX_INT
  }

  /** From the first to the last value, every step-th. */
  predicate Hits(i: Item, min: int, max: int, v: int)
    requires i.step != Some(0)
  {
    First(i, min) <= v <= Last(i, max) && (v - First(i, min)) % i.step.GetOr(1) == 0
  }

  lemma NumeralPlain(n: nat)
    ensures Decimal(n) != "" && Decimal(n) != "*"
    ensures '-' !in Decimal(n) && '/' !in Decimal(n) && ',' !in Decimal(n) && '*' !in Decimal(n)
  {
    assert forall c :: c in Decimal(n) ==> IsDigit(c);
    assert Decimal(n)[0] in Decimal(n);
  }

  lemma Cut(a: string, c: char, b: string)
    requires c !in a
    ensures IndexOfChar(a + [c] + b, c) == Some(|a|)
    ensures (a + [c] + b)[..|a|] == a && (a + [c] + b)[|a| + 1..] == b
  {
    var s := a + [c] + b;
    assert s[..|a|] == a && s[|a| + 1..] == b;
    IndexOfCharUnique(s, c, |a|);
  }

  /** What the bounds of a span are read as. */
  lemma SpanReads(s: Span)
    requires Machine(Item(s, None))
    ensures var range := SpanText(s);
            var dash := IndexOfChar(range, '-');
            && '/' !in range && ',' !in range && range != ""
            && (range == "*" <==> s.All?)
            && (s.One? ==> dash.None? && Atoi(range) == Some(s.a))
            && (s.Dash? ==> dash.Some? && Atoi(range[..dash.value]) == Some(s.a)
                            && Atoi(range[dash.value + 1..]) == Some(s.b))
  {
    hide Atoi, Decimal, IndexOfChar;
    match s
    case All =>
    case One(a) =>
      NumeralPlain(a);
      AtoiNumeral(a);
      IndexOfCharNone(Decimal(a), '-');
    case Dash(a, b) =>
      NumeralPlain(a);
      NumeralPlain(b);
      AtoiNumeral(a);
      AtoiNumeral(b);
      Cut(Decimal(a), '-', Decimal(b));
      assert SpanText(s) == Decimal(a) + ['-'] + Decimal(b);
      assert SpanText(s)[|Decimal(a)|] == '-';
  }

  lemma ItemReads(i: Item, min: int, max: int)
    requires Machine(i) && 0 <= min <= max <= 63
    ensures ReadPart(ItemText(i), min, max) ==
            if Allowed(i, min, max) then Ok(Range(First(i, min), Last(i, max), i.step.GetOr(1))) else Invalid
  {
    hide Atoi, Decimal, IndexOfChar, SpanText;
    var range := SpanText(i.span);
    SpanReads(i.span);
    if i.step.Some? {
      AtoiNumeral(i.step.value);
      Cut(range, '/', Decimal(i.step.value));
      assert ItemText(i) == range + ['/'] + Decimal(i.step.value);
    } else {
      assert ItemText(i) == range;
      IndexOfCharNone(range, '/');
    }
  }

  /** The mask of one part, whatever it is. */
  lemma ItemMask(i: Item, min: int, max: int)
    requires Machine(i) && 0 <= min <= max <= 63
    ensures PartMask(ItemText(i), min, max) ==
            if !Allowed(i, min, max) then Invalid
            else if !StepFits(i, min) then Panic
            else Ok(set v | First(i, min) <= v <= Last(i, max) && Hits(i, min, max, v))
  {
    hide ReadPart, ItemText;
    ItemReads(i, min, max);
    if Allowed(i, min, max) && StepFits(i, min) {
      var r := Range(First(i, min), Last(i, max), i.step.GetOr(1));
      assert RangeMask(r) == set v | First(i, min) <= v <= Last(i, max) && Hits(i, min, max, v);
    }
  }

  function Texts(items: seq<Item>): (ts: seq<string>)
    ensures |ts| == |items| && forall k :: 0 <= k < |items| ==> ts[k] == ItemText(items[k])
  {
    seq(|items|, k requires 0 <= k < |items| => ItemText(items[k]))
  }

  /** The field a user writes: items joined by commas. */
  function FieldText(items: seq<Item>): string {
    Join(Texts(items), ',')
  }

  predicate Fine(i: Item, min: int, max: int) {
    Machine(i) && Allowed(i, min, max) && StepFits(i, min)
  }

  ghost predicate HitByOne(items: seq<Item>, min: int, max: int, v: int) {
    exists k :: 0 <= k < |items| && items[k].step != Some(0) && Hits(items[k], min, max, v)
  }

  lemma {:induction false} TextsMask(items: seq<Item>, min: int, max: int, v: int)
    requires 0 <= min <= max <= 63
    requires forall k :: 0 <= k < |items| ==> Fine(items[k], min, max)
    ensures var m := PartsMask(Texts(items), min, max);
            m.Ok? && (v in m.value <==> HitByOne(items, min, max, v))
  {
    if items != [] {
      hide PartMask, Hits, First, Last;
      var n := |items| - 1;
      TextsMask(items[..n], min, max, v);
      assert Texts(items)[..n] == Texts(items[..n]);
      ItemMask(items[n], min, max);
      HitBySnoc(items, min, max, v);
      HitsWithin(items[n], min, max, v);
    }
  }

  lemma HitsWithin(i: Item, min: int, max: int, v: int)
    requires i.step != Some(0)
    ensures Hits(i, min, max, v) ==> First(i, min) <= v <= Last(i, max)
  {
  }

  lemma HitBySnoc(items: seq<Item>, min: int, max: int, v: int)
    requires items != [] && items[|items| - 1].step != Some(0)
    ensures HitByOne(items, min, max, v) <==>
            HitByOne(items[..|items| - 1], min, max, v) || Hits(items[|items| - 1], min, max, v)
  {
    hide Hits;
    var n := |items| - 1;
    if HitByOne(items, min, max, v) {
      var k :| 0 <= k < |items| && items[k].step != Some(0) && Hits(items[k], min, max, v);
      assert k < n ==> items[..n][k] == items[k];
    }
    if HitByOne(items[..n], min, max, v) {
      var k :| 0 <= k < n && items[..n][k].step != Some(0) && Hits(items[..n][k], min, max, v);
      assert items[k] == items[..n][k];
    }
  }

  lemma TextPlain(i: Item)
    ensures ',' !in ItemText(i) && ItemText(i) != ""
  {
    hide Decimal;
    if i.span.One? { NumeralPlain(i.span.a); }
    if i.span.Dash? { NumeralPlain(i.span.a); NumeralPlain(i.span.b); }
    if i.step.Some? { NumeralPlain(i.step.value); }
  }

  lemma SplitField(items: seq<Item>)
    requires items != []
    ensures Split(FieldText(items), ',') == Texts(items)
  {
    hide ItemText;
    forall t | t in Texts(items) ensures ',' !in t {
      var k :| 0 <= k < |items| && Texts(items)[k] == t;
      TextPlain(items[k]);
    }
    SplitJoin(Texts(items), ',');
  }

  /** Reading a field that a user writes with ranges, steps and commas: it matches exactly the values
      that some item runs through, from its first to its last in its steps. */
  lemma FieldSays(items: seq<Item>, min: int, max: int, v: int)
    requires items != [] && 0 <= min <= max <= 63 && min <= v <= max
    requires forall k :: 0 <= k < |items| ==> Fine(items[k], min, max)
    ensures var m := FieldMask(FieldText(items), min, max);
            m.Ok? && (Has(m.value, v) <==> HitByOne(items, min, max, v))
  {
    hide PartsMask, Hits, Fine, Split;
    SplitField(items);
    TextsMask(items, min, max, v);
    if FieldText(items) == "*" {
      OnlyStar(items);
      EveryValue(min, max, v);
    }
  }

  lemma OnlyStar(items: seq<Item>)
    requires items != [] && FieldText(items) == "*"
    ensures items == [Item(All, None)]
  {
    hide ItemText, Split;
    SplitField(items);
    NoComma();
    assert |Texts(items)| == 1 && Texts(items)[0] == ItemText(items[0]) == "*";
    StarText(items[0]);
  }

  lemma NoComma()
    ensures Split("*", ',') == ["*"]
  {
  }

  lemma StarText(i: Item)
    ensures i != Item(All, None) ==> ItemText(i) != "*"
  {
    hide Decimal;
    if !i.span.All? {
      NumeralPlain(i.span.a);
      assert Decimal(i.span.a)[0] in Decimal(i.span.a);
      assert ItemText(i)[0] == Decimal(i.span.a)[0];
    }
  }

  lemma EveryValue(min: int, max: int, v: int)
    requires min <= v <= max
    ensures HitByOne([Item(All, None)], min, max, v)
  {
    assert Hits([Item(All, None)][0], min, max, v);
  }

  /** A field with an item out of order, out of bounds or with step zero is invalid, and one with a
      step too large for the machine panics, whichever comes first. */
  lemma FieldRefused(items: seq<Item>, min: int, max: int, k: nat)
    requires 0 <= min <= max <= 63 && k < |items| && Machine(items[k])
    requires forall j :: 0 <= j < k ==> Fine(items[j], min, max)
    requires FieldText(items) != "*"
    ensures !Allowed(items[k], min, max) ==> FieldMask(FieldText(items), min, max) == Invalid
    ensures Allowed(items[k], min, max) && !StepFits(items[k], min) ==>
              FieldMask(FieldText(items), min, max) == Panic
  {
    hide PartMask, Hits, Fine, Split, Allowed, StepFits, ItemText, FieldText;
    SplitField(items);
    TextsMask(items[..k], min, max, 0);
    ItemMask(items[k], min, max);
    assert Texts(items)[..k] == Texts(items[..k]);
    assert Texts(items)[..k + 1][..k] == Texts(items)[..k];
    if !PartMask(ItemText(items[k]), min, max).Ok? {
      BadPartDecides(Texts(items), k + 1, min, max);
    }
  }

  /** A whole expression: five fields of a user's items, joined by blanks, say what each of them
      says; on weekdays 7 is Sunday too. */
  lemma ExpressionSays(fields: seq<seq<Item>>, v: int)
    requires |fields| == 5
    requires forall f :: 0 <= f < 5 ==> fields[f] != []
    requires forall f, k :: 0 <= f < 5 && 0 <= k < |fields[f]| ==> Fine(fields[f][k], Bounds()[f].0, Bounds()[f].1)
    ensures var texts := [FieldText(fields[0]), FieldText(fields[1]), FieldText(fields[2]),
                          FieldText(fields[3]), FieldText(fields[4])];
            var o := ScheduleOf(texts);
            && Fields(Join(texts, ' ')) == texts && o.Ok?
            && (0 <= v <= 59 ==> (Has(o.value.minute, v) <==> HitByOne(fields[0], 0, 59, v)))
            && (0 <= v <= 23 ==> (Has(o.value.hour, v) <==> HitByOne(fields[1], 0, 23, v)))
            && (1 <= v <= 31 ==> (Has(o.value.dom, v) <==> HitByOne(fields[2], 1, 31, v)))
            && (1 <= v <= 12 ==> (Has(o.value.month, v) <==> HitByOne(fields[3], 1, 12, v)))
            && (0 <= v <= 6 ==> (Has(o.value.dow, v) <==>
                  HitByOne(fields[4], 0, 7, v) || (v == 0 && HitByOne(fields[4], 0, 7, 7))))
  {
    hide FieldMask, FieldText, Fine, HitByOne, Fields, Join, IsWord;
    var texts := [FieldText(fields[0]), FieldText(fields[1]), FieldText(fields[2]),
                  FieldText(fields[3]), FieldText(fields[4])];
    FieldSaysAll(fields[0], 0, 59);
    FieldSaysAll(fields[1], 0, 23);
    FieldSaysAll(fields[2], 1, 31);
    FieldSaysAll(fields[3], 1, 12);
    FieldSaysAll(fields[4], 0, 7);
    forall f | 0 <= f < 5 ensures IsWord(texts[f]) { FieldIsWord(fields[f]); }
    FieldsJoined(texts);
    SundayHas(FieldMask(texts[4], 0, 7).value, v);
  }

  lemma SundayHas(m: Mask, v: int)
    ensures 0 <= v <= 6 ==> (Has(SundayIsZero(m), v) <==> Has(m, v) || (v == 0 && Has(m, 7)))
  {
  }

  lemma FieldSaysAll(items: seq<Item>, min: int, max: int)
    requires items != [] && 0 <= min <= max <= 63
    requires forall k :: 0 <= k < |items| ==> Fine(items[k], min, max)
    ensures FieldMask(FieldText(items), min, max).Ok?
    ensures forall v :: min <= v <= max ==>
              (Has(FieldMask(FieldText(items), min, max).value, v) <==> HitByOne(items, min, max, v))
  {
    hide Fine, FieldMask, FieldText, HitByOne;
    FieldSays(items, min, max, min);
    forall v | min <= v <= max
      ensures Has(FieldMask(FieldText(items), min, max).value, v) <==> HitByOne(items, min, max, v)
    {
      FieldSays(items, min, max, v);
    }
  }

  lemma ItemIsWord(i: Item)
    ensures IsWord(ItemText(i))
  {
    hide Decimal;
    if i.span.One? { NumeralIsWord(i.span.a); }
    if i.span.Dash? { NumeralIsWord(i.span.a); NumeralIsWord(i.span.b); }
    if i.step.Some? { NumeralIsWord(i.step.value); }
  }

  lemma NumeralIsWord(n: nat)
    ensures IsWord(Decimal(n))
  {
    forall k | 0 <= k < |Decimal(n)| ensures !IsSpace(Decimal(n)[k]) {
      assert Decimal(n)[k] in Decimal(n);
    }
  }

  lemma {:induction false} WordsJoin(ts: seq<string>)
    requires ts != [] && forall k :: 0 <= k < |ts| ==> IsWord(ts[k])
    ensures IsWord(Join(ts, ','))
  {
    if |ts| > 1 {
      WordsJoin(ts[1..]);
    }
  }

  lemma FieldIsWord(items: seq<Item>)
    requires items != []
    ensures IsWord(FieldText(items))
  {
    hide ItemText, IsWord;
    forall k | 0 <= k < |items| ensures IsWord(Texts(items)[k]) { ItemIsWord(items[k]); }
    WordsJoin(Texts(items));
  }
}
