/** Five-field cron expressions: reading them, and rendering what was read. */
module Cron {
  import opened Wrappers
  import opened Text

  /** `Panic` is Go's run-time panic, which the parser does not recover from. */
  datatype Outcome<+T> = Ok(value: T) | Invalid | Panic

  /** A bit mask is the set of its bits; None is the field "*". */
  type Mask = Option<set<int>>

  datatype Schedule = Schedule(minute: Mask, hour: Mask, dom: Mask, month: Mask, dow: Mask)

  predicate Has(m: Mask, v: int) {
    m.None? || v in m.value
  }

  // ---------------------------------------------------------------------------
  // Numbers and fields
  // ---------------------------------------------------------------------------

  const MAX_INT := 0x7FFF_FFFF_FFFF_FFFF

  function Wrap64(n: int): int {
    (n + 0x8000_0000_0000_0000) % 0x1_0000_0000_0000_0000 - 0x8000_0000_0000_0000
  }

  /** `strconv.Atoi`: an optional sign, then decimal digits, within 64 bits. */
  function Atoi(s: string): (r: Option<int>)
    ensures r.Some? ==> -MAX_INT - 1 <= r.value <= MAX_INT
  {
    if s == "" then None
    else
      var digits := if s[0] == '-' || s[0] == '+' then s[1..] else s;
      if digits == "" || exists c :: c in digits && !IsDigit(c) then None
      else
        var n: int := if s[0] == '-' then 0 - DecimalValue(digits) else DecimalValue(digits);
        if -MAX_INT - 1 <= n <= MAX_INT then Some(n) else None
  }

  predicate IsSpace(c: char) {
    var n := c as int;
    9 <= n <= 13 || n in {32, 0x85, 0xA0, 0x1680, 0x2028, 0x2029, 0x202F, 0x205F, 0x3000} || 0x2000 <= n <= 0x200A
  }

  /** The length of the run of non-space characters at the start. */
  function WordLength(s: string): (n: nat)
    ensures n <= |s|
  {
    if s == "" || IsSpace(s[0]) then 0 else 1 + WordLength(s[1..])
  }

  /** `strings.Fields` */
  function Fields(s: string): seq<string>
    decreases |s|
  {
    if s == "" then []
    else if IsSpace(s[0]) then Fields(s[1..])
    else [s[..WordLength(s)]] + Fields(s[WordLength(s)..])
  }

  predicate IsWord(w: string) {
    w != "" && forall i :: 0 <= i < |w| ==> !IsSpace(w[i])
  }

  lemma {:induction false} WordEnds(w: string, rest: string)
    requires forall i :: 0 <= i < |w| ==> !IsSpace(w[i])
    requires rest == "" || IsSpace(rest[0])
    ensures WordLength(w + rest) == |w|
  {
    if w == "" {
      assert w + rest == rest;
    } else {
      assert (w + rest)[1..] == w[1..] + rest;
      WordEnds(w[1..], rest);
    }
  }

  /** Words joined by blanks are the fields of their text. */
  lemma {:induction false} FieldsJoined(words: seq<string>)
    requires forall i :: 0 <= i < |words| ==> IsWord(words[i])
    ensures Fields(Join(words, ' ')) == words
  {
    if words != [] {
      var w, more := words[0], words[1..];
      var rest := if more == [] then "" else " " + Join(more, ' ');
      assert Join(words, ' ') == w + rest;
      WordEnds(w, rest);
      assert (w + rest)[..|w|] == w && (w + rest)[|w|..] == rest;
      FieldsJoined(more);
      if more != [] {
        assert rest[1..] == Join(more, ' ');
        assert Fields(rest) == more;
      }
      assert Fields(w + rest) == [w] + Fields(rest);
      assert words == [w] + more;
    }
  }

  // ---------------------------------------------------------------------------
  // What a field means
  // ---------------------------------------------------------------------------

  datatype Range = Range(low: int, high: int, step: int)

  /** The bounds and the step that one comma-separated part spells. */
  function ReadPart(part: string, min: int, max: int): (o: Outcome<Range>)
    ensures o.Ok? ==> min <= o.value.low <= o.value.high <= max && 0 < o.value.step
    ensures !o.Panic?
  {
    var slash := IndexOfChar(part, '/');
    var step := if slash.None? then Some(1) else Atoi(part[slash.value + 1..]);
    var range := if slash.None? then part else part[..slash.value];
    if step.None? || step.value <= 0 then Invalid
    else
      var dash := IndexOfChar(range, '-');
      var low := if range == "*" then Some(min) else if dash.Some? then Atoi(range[..dash.value]) else Atoi(range);
      var high := if range == "*" then Some(max) else if dash.Some? then Atoi(range[dash.value + 1..]) else Atoi(range);
      if low.None? || high.None? then Invalid
      else if low.value < min || high.value > max || low.value > high.value then Invalid
      else Ok(Range(low.value, high.value, step.value))
  }

  predicate Covers(r: Range, v: int)
    requires r.step > 0
  {
    r.low <= v <= r.high && (v - r.low) % r.step == 0
  }

  function RangeMask(r: Range): set<int>
    requires r.step > 0
  {
    set v | r.low <= v <= r.high && Covers(r, v)
  }

  /** The counter of the stepping loop leaves the 64-bit range before it leaves the field. */
  predicate Overflows(r: Range) {
    r.low + r.step > MAX_INT
  }

  function PartMask(part: string, min: int, max: int): Outcome<set<int>> {
    match ReadPart(part, min, max)
    case Ok(r) => if Overflows(r) then Panic else Ok(RangeMask(r))
    case _ => Invalid
  }

  /** The parts are read in order, and the first bad one decides. */
  function PartsMask(parts: seq<string>, min: int, max: int): Outcome<set<int>> {
    if parts == [] then Ok({})
    else
      var n := |parts| - 1;
      match PartsMask(parts[..n], min, max)
      case Ok(bits) =>
        (match PartMask(parts[n], min, max)
         case Ok(more) => Ok(bits + more)
         case Invalid => Invalid
         case Panic => Panic)
      case Invalid => Invalid
      case Panic => Panic
  }

  function FieldMask(field: string, min: int, max: int): Outcome<Mask> {
    if field == "*" then Ok(None)
    else
      match PartsMask(Split(field, ','), min, max)
      case Ok(bits) => Ok(Some(bits))
      case Invalid => Invalid
      case Panic => Panic
  }

  /** 7 is Sunday too. */
  function SundayIsZero(m: Mask): Mask {
    if m.Some? && 7 in m.value then Some(m.value + {0} - {7}) else m
  }

  function Bounds(): seq<(int, int)> {
    [(0, 59), (0, 23), (1, 31), (1, 12), (0, 7)]
  }

  // ---------------------------------------------------------------------------
  // The parser
  // ---------------------------------------------------------------------------

  lemma StepApart(r: Range, v: int)
    requires r.step > 0 && r.low < v && (v - r.low) % r.step == 0
    ensures v >= r.low + r.step
  {
    if v < r.low + r.step { Remainder(v - r.low, 0, r.step, v - r.low); }
  }

  method ParsePart(part: string, min: int, max: int) returns (o: Outcome<set<int>>)
    requires 0 <= min <= max <= 63
    ensures o == PartMask(part, min, max)
  {
    hide Atoi, IndexOfChar, RangeMask;
    var step := 1;
    var rangePart := part;
    var slash := IndexOfChar(part, '/');
    if slash.Some? {
      var n := Atoi(part[slash.value + 1..]);
      if n.None? || n.value <= 0 {
        return Invalid;
      }
      step := n.value;
      rangePart := part[..slash.value];
    }
    var low, high := min, max;
    if rangePart != "*" {
      var dash := IndexOfChar(rangePart, '-');
      var lo := Atoi(if dash.Some? then rangePart[..dash.value] else rangePart);
      var hi := Atoi(if dash.Some? then rangePart[dash.value + 1..] else rangePart);
      if lo.None? || hi.None? {
        return Invalid;
      }
      low, high := lo.value, hi.value;
    }
    if low < min || high > max || low > high {
      return Invalid;
    }
    assert ReadPart(part, min, max) == Ok(Range(low, high, step));
    o := Steps(low, high, step);
  }

  /** The stepping loop, with the machine's addition. */
  method Steps(low: int, high: int, step: int) returns (o: Outcome<set<int>>)
    requires 0 <= low <= high <= 63 && 0 < step <= MAX_INT
    ensures var r := Range(low, high, step);
            o == if Overflows(r) then Panic else Ok(RangeMask(r))
  {
    ghost var r := Range(low, high, step);
    var bits: set<int> := {};
    var v := low;
    while v <= high
      invariant v >= low && (v - low) % step == 0
      invariant Overflows(r) ==> v == low
      invariant bits == set b | low <= b <= high && b < v && Covers(r, b)
      decreases high - v
    {
      NextStep(r, v);
      bits := bits + {v};
      v := Wrap64(v + step);
      if v < 0 {
        return Panic;
      }
    }
    assert bits == RangeMask(r);
    o := Ok(bits);
  }

  /** Nothing is covered strictly between a covered value and the next step, and the addition
      wraps exactly when the range overflows. */
  lemma NextStep(r: Range, v: int)
    requires 0 <= r.low <= v <= r.high <= 63 && 0 < r.step <= MAX_INT && (v - r.low) % r.step == 0
    requires Overflows(r) ==> v == r.low
    ensures (v + r.step - r.low) % r.step == 0
    ensures forall b :: v < b < v + r.step ==> !Covers(r, b)
    ensures if Overflows(r) then Wrap64(v + r.step) < 0 else Wrap64(v + r.step) == v + r.step
  {
    if !Overflows(r) && v != r.low { StepApart(r, v); }
    ModSteps(v - r.low, r.step);
    forall b | v < b < v + r.step ensures !Covers(r, b) {
      ModBetween(v - r.low, r.step, b - r.low);
    }
  }

  /** Quotient and remainder are unique. */
  lemma Remainder(a: int, q: int, n: int, r: int)
    requires a == q * n + r && 0 <= r < n
    ensures a % n == r
  {
    var k := a / n;
    assert a == k * n + a % n;
    Multiples(q - k, n);
    assert (q - k) * n == q * n - k * n;
  }

  lemma Multiples(d: int, n: int)
    requires n > 0
    ensures d >= 1 ==> d * n >= n
    ensures d <= -1 ==> d * n <= -n
  {
    if d >= 1 {
      assert d * n == n + (d - 1) * n;
    } else if d <= -1 {
      assert d * n == -n + (d + 1) * n;
    }
  }

  lemma ModSteps(a: int, n: int)
    requires n > 0 && a % n == 0
    ensures (a + n) % n == 0
  {
    var k := a / n;
    assert (k + 1) * n == k * n + n;
    Remainder(a + n, k + 1, n, 0);
  }

  lemma ModBetween(a: int, n: int, b: int)
    requires n > 0 && a % n == 0 && a < b < a + n
    ensures b % n == b - a
  {
    Remainder(b, a / n, n, b - a);
  }

  method ParseField(field: string, min: int, max: int) returns (o: Outcome<Mask>)
    requires 0 <= min <= max <= 63
    ensures o == FieldMask(field, min, max)
  {
    if field == "*" {
      return Ok(None);
    }
    var bits: set<int> := {};
    var parts := Split(field, ',');
    for i := 0 to |parts|
      invariant PartsMask(parts[..i], min, max) == Ok(bits)
    {
      assert parts[..i + 1][..i] == parts[..i];
      var b := ParsePart(parts[i], min, max);
      if !b.Ok? {
        BadPartDecides(parts, i + 1, min, max);
        return if b.Invalid? then Invalid else Panic;
      }
      bits := bits + b.value;
    }
    assert parts[..|parts|] == parts;
    o := Ok(Some(bits));
  }

  /** Once a part is bad the rest is not read. */
  lemma {:induction false} BadPartDecides(parts: seq<string>, n: nat, min: int, max: int)
    requires n <= |parts| && !PartsMask(parts[..n], min, max).Ok?
    ensures PartsMask(parts, min, max) == PartsMask(parts[..n], min, max)
  {
    if n < |parts| {
      var k := |parts| - 1;
      assert parts[..k][..n] == parts[..n];
      BadPartDecides(parts[..k], n, min, max);
    } else {
      assert parts[..n] == parts;
    }
  }

  function FieldAt(fields: seq<string>, i: nat): Outcome<Mask>
    requires |fields| == 5 && i < 5
  {
    FieldMask(fields[i], Bounds()[i].0, Bounds()[i].1)
  }

  function ScheduleOf(fields: seq<string>): Outcome<Schedule>
    requires |fields| == 5
  {
    match FieldAt(fields, 0)
    case Invalid => Invalid case Panic => Panic
    case Ok(minute) =>
    match FieldAt(fields, 1)
    case Invalid => Invalid case Panic => Panic
    case Ok(hour) =>
    match FieldAt(fields, 2)
    case Invalid => Invalid case Panic => Panic
    case Ok(dom) =>
    match FieldAt(fields, 3)
    case Invalid => Invalid case Panic => Panic
    case Ok(month) =>
    match FieldAt(fields, 4)
    case Invalid => Invalid case Panic => Panic
    case Ok(dow) => Ok(Schedule(minute, hour, dom, month, SundayIsZero(dow)))
  }

  method Parse(expr: string) returns (o: Outcome<Schedule>)
    ensures |Fields(expr)| != 5 ==> o == Invalid
    ensures |Fields(expr)| == 5 ==> o == ScheduleOf(Fields(expr))
  {
    var fields := Fields(expr);
    if |fields| != 5 {
      return Invalid;
    }
    var minute := ParseField(fields[0], 0, 59);
    if !minute.Ok? { return if minute.Invalid? then Invalid else Panic; }
    var hour := ParseField(fields[1], 0, 23);
    if !hour.Ok? { return if hour.Invalid? then Invalid else Panic; }
    var dom := ParseField(fields[2], 1, 31);
    if !dom.Ok? { return if dom.Invalid? then Invalid else Panic; }
    var month := ParseField(fields[3], 1, 12);
    if !month.Ok? { return if month.Invalid? then Invalid else Panic; }
    var dow := ParseField(fields[4], 0, 7);
    if !dow.Ok? { return if dow.Invalid? then Invalid else Panic; }
    var days := dow.value;
    if days.Some? && 7 in days.value {
      days := Some(days.value + {0});
      days := Some(days.value - {7});
    }
    o := Ok(Schedule(minute.value, hour.value, dom.value, month.value, days));
  }

  // ---------------------------------------------------------------------------
  // What the masks hold
  // ---------------------------------------------------------------------------

  ghost predicate Listed(field: string, min: int, max: int, v: int) {
    exists part :: part in Split(field, ',') && PartLists(part, min, max, v)
  }

  ghost predicate PartLists(part: string, min: int, max: int, v: int) {
    ReadPart(part, min, max).Ok? && Covers(ReadPart(part, min, max).value, v)
  }

  lemma {:induction false} PartsMeaning(parts: seq<string>, min: int, max: int, v: int)
    requires PartsMask(parts, min, max).Ok?
    ensures v in PartsMask(parts, min, max).value <==> exists part :: part in parts && PartLists(part, min, max, v)
    ensures forall part :: part in parts ==> ReadPart(part, min, max).Ok?
  {
    if parts != [] {
      var n := |parts| - 1;
      PartsMeaning(parts[..n], min, max, v);
      assert parts == parts[..n] + [parts[n]];
      assert parts[n] in parts;
      assert forall part :: part in parts <==> part in parts[..n] || part == parts[n];
    }
  }

  /** A field that is not "*" matches a value exactly when one of its parts lists it, with
      low <= v <= high and v a whole number of steps from low; the values lie within the field,
      and there is at least one. */
  lemma FieldMeaning(field: string, min: int, max: int, v: int)
    requires field != "*" && FieldMask(field, min, max).Ok?
    ensures var m := FieldMask(field, min, max).value;
            && m.Some?
            && (v in m.value <==> Listed(field, min, max, v))
            && (v in m.value ==> min <= v <= max)
            && m.value != {}
  {
    var parts := Split(field, ',');
    PartsMeaning(parts, min, max, v);
    var first := ReadPart(parts[0], min, max).value;
    PartsMeaning(parts, min, max, first.low);
    assert PartLists(parts[0], min, max, first.low);
  }

  lemma FieldsParsed(fields: seq<string>)
    requires |fields| == 5 && ScheduleOf(fields).Ok?
    ensures var s := ScheduleOf(fields).value;
            && FieldMask(fields[0], 0, 59) == Ok(s.minute)
            && FieldMask(fields[1], 0, 23) == Ok(s.hour)
            && FieldMask(fields[2], 1, 31) == Ok(s.dom)
            && FieldMask(fields[3], 1, 12) == Ok(s.month)
            && FieldMask(fields[4], 0, 7).Ok? && s.dow == SundayIsZero(FieldMask(fields[4], 0, 7).value)
  {
    assert Bounds()[0] == (0, 59) && Bounds()[1] == (0, 23) && Bounds()[2] == (1, 31)
           && Bounds()[3] == (1, 12) && Bounds()[4] == (0, 7);
  }

  ghost predicate Within(m: Mask, min: int, max: int) {
    m.Some? ==> m.value != {} && forall v :: v in m.value ==> min <= v <= max
  }

  lemma MaskWithin(field: string, min: int, max: int)
    requires FieldMask(field, min, max).Ok?
    ensures Within(FieldMask(field, min, max).value, min, max)
  {
    if field != "*" {
      FieldMeaning(field, min, max, 0);
      forall v { FieldMeaning(field, min, max, v); }
    }
  }

  /** In a parsed schedule every mask stays within its field and is not empty. */
  lemma ParsedMasks(fields: seq<string>)
    requires |fields| == 5 && ScheduleOf(fields).Ok?
    ensures var s := ScheduleOf(fields).value;
            Within(s.minute, 0, 59) && Within(s.hour, 0, 23) && Within(s.dom, 1, 31) && Within(s.month, 1, 12)
  {
    FieldsParsed(fields);
    MaskWithin(fields[0], 0, 59);
    MaskWithin(fields[1], 0, 23);
    MaskWithin(fields[2], 1, 31);
    MaskWithin(fields[3], 1, 12);
  }

  /** Sunday is 0 and only 0, and it is there exactly when 0 or 7 was listed. */
  lemma ParsedWeekdays(fields: seq<string>)
    requires |fields| == 5 && ScheduleOf(fields).Ok?
    ensures var dow := ScheduleOf(fields).value.dow;
            && (dow.Some? <==> fields[4] != "*")
            && Within(dow, 0, 6)
            && (dow.Some? ==> (0 in dow.value <==> Listed(fields[4], 0, 7, 0) || Listed(fields[4], 0, 7, 7)))
            && (dow.Some? ==> forall v :: 1 <= v <= 6 ==> (v in dow.value <==> Listed(fields[4], 0, 7, v)))
  {
    FieldsParsed(fields);
    if fields[4] != "*" {
      MaskWithin(fields[4], 0, 7);
      FieldMeaning(fields[4], 0, 7, 0);
      FieldMeaning(fields[4], 0, 7, 7);
      var listed := FieldMask(fields[4], 0, 7).value.value;
      assert 7 in listed ==> 0 in listed + {0} - {7};
      forall v | 1 <= v <= 6 ensures v in SundayIsZero(Some(listed)).value <==> Listed(fields[4], 0, 7, v) {
        FieldMeaning(fields[4], 0, 7, v);
      }
    }
  }

  ghost predicate PartOverflows(part: string, min: int, max: int) {
    ReadPart(part, min, max).Ok? && Overflows(ReadPart(part, min, max).value)
  }

  ghost predicate GoodPart(part: string, min: int, max: int) {
    ReadPart(part, min, max).Ok? && !PartOverflows(part, min, max)
  }

  lemma {:induction false} AllGood(parts: seq<string>, min: int, max: int)
    requires PartsMask(parts, min, max).Ok?
    ensures forall j :: 0 <= j < |parts| ==> GoodPart(parts[j], min, max)
  {
    hide ReadPart, RangeMask, Overflows;
    if parts != [] {
      var n := |parts| - 1;
      AllGood(parts[..n], min, max);
      assert forall j :: 0 <= j < n ==> parts[j] == parts[..n][j];
    }
  }

  lemma {:induction false} FirstBadDecides(parts: seq<string>, min: int, max: int) returns (i: nat)
    requires !PartsMask(parts, min, max).Ok?
    ensures i < |parts| && !GoodPart(parts[i], min, max)
    ensures forall j :: 0 <= j < i ==> GoodPart(parts[j], min, max)
    ensures PartsMask(parts, min, max).Panic? <==> PartOverflows(parts[i], min, max)
  {
    var n := |parts| - 1;
    if PartsMask(parts[..n], min, max).Ok? {
      i := n;
      AllGood(parts[..n], min, max);
      assert forall j :: 0 <= j < n ==> parts[j] == parts[..n][j];
    } else {
      i := FirstBadDecides(parts[..n], min, max);
      assert forall j :: 0 <= j <= i ==> parts[j] == parts[..n][j];
    }
  }

  /** A list of parts makes the parser panic exactly when its first bad part is a well-formed one
      whose first step leaves the 64-bit range: the sum wraps to a negative number, and shifting by
      that is a run-time error. */
  lemma PanicsExactlyWhen(parts: seq<string>, min: int, max: int)
    ensures PartsMask(parts, min, max).Panic? <==>
            exists i :: 0 <= i < |parts| && PartOverflows(parts[i], min, max)
                        && forall j :: 0 <= j < i ==> GoodPart(parts[j], min, max)
  {
    if PartsMask(parts, min, max).Ok? {
      AllGood(parts, min, max);
    } else {
      var i := FirstBadDecides(parts, min, max);
    }
  }

  /** Reading this field panics: its first bad part is well formed and its first step leaves the
      64-bit range. */
  ghost predicate FieldOverflows(field: string, min: int, max: int) {
    var parts := Split(field, ',');
    field != "*" && exists i :: 0 <= i < |parts| && PartOverflows(parts[i], min, max)
                                && forall j :: 0 <= j < i ==> GoodPart(parts[j], min, max)
  }

  /** Every part of the field can be read. */
  ghost predicate FieldGood(field: string, min: int, max: int) {
    var parts := Split(field, ',');
    field == "*" || forall i :: 0 <= i < |parts| ==> GoodPart(parts[i], min, max)
  }

  lemma FieldOutcome(field: string, min: int, max: int)
    ensures FieldMask(field, min, max).Panic? <==> FieldOverflows(field, min, max)
    ensures FieldMask(field, min, max).Ok? <==> FieldGood(field, min, max)
  {
    hide GoodPart, PartOverflows, PartsMask, Split;
    var parts := Split(field, ',');
    PanicsExactlyWhen(parts, min, max);
    if PartsMask(parts, min, max).Ok? {
      AllGood(parts, min, max);
    } else {
      var i := FirstBadDecides(parts, min, max);
      assert !GoodPart(parts[i], min, max);
    }
  }

  /** The parser of a whole expression panics exactly when a field's reading does and every field
      before it can be read. */
  lemma ExpressionPanicsExactlyWhen(fields: seq<string>)
    requires |fields| == 5
    ensures ScheduleOf(fields).Panic? <==>
            exists i :: 0 <= i < 5 && FieldOverflows(fields[i], Bounds()[i].0, Bounds()[i].1)
                        && forall j :: 0 <= j < i ==> FieldGood(fields[j], Bounds()[j].0, Bounds()[j].1)
  {
    hide FieldMask, FieldOverflows, FieldGood;
    forall i | 0 <= i < 5
      ensures FieldAt(fields, i).Panic? <==> FieldOverflows(fields[i], Bounds()[i].0, Bounds()[i].1)
      ensures FieldAt(fields, i).Ok? <==> FieldGood(fields[i], Bounds()[i].0, Bounds()[i].1)
    {
      FieldOutcome(fields[i], Bounds()[i].0, Bounds()[i].1);
    }
    FirstPanics(fields);
  }

  lemma FirstPanics(fields: seq<string>)
    requires |fields| == 5
    ensures ScheduleOf(fields).Panic? <==>
            exists i :: 0 <= i < 5 && FieldAt(fields, i).Panic? && forall j :: 0 <= j < i ==> FieldAt(fields, j).Ok?
  {
    hide FieldAt;
    var i := if !FieldAt(fields, 0).Ok? then 0 else if !FieldAt(fields, 1).Ok? then 1
             else if !FieldAt(fields, 2).Ok? then 2 else if !FieldAt(fields, 3).Ok? then 3 else 4;
    assert forall j :: 0 <= j < i ==> FieldAt(fields, j).Ok?;
    assert ScheduleOf(fields).Panic? <==> FieldAt(fields, i).Panic?;
  }

  /** Reading a numeral. */
  lemma AtoiNumeral(n: nat)
    requires n <= MAX_INT
    ensures Atoi(Decimal(n)) == Some(n)
  {
    var s := Decimal(n);
    assert IsDigit(s[0]);
    DecimalRoundTrip(n);
  }

  lemma NotInDecimal(n: nat, c: char)
    requires !IsDigit(c)
    ensures c !in Decimal(n)
  {
  }

  lemma PartPanics()
    ensures PartMask("1/" + Decimal(MAX_INT), 0, 59) == Panic
  {
    hide Atoi, Decimal;
    var part := "1/" + Decimal(MAX_INT);
    assert part[..1] == Decimal(1) && part[2..] == Decimal(MAX_INT) by { OneIsOne(); }
    IndexOfCharUnique(part, '/', 1);
    IndexOfCharNone("1", '-');
    AtoiNumeral(1);
    AtoiNumeral(MAX_INT);
    assert part[..1] == "1";
  }

  lemma OneIsOne()
    ensures Decimal(1) == "1"
  {
  }

  lemma IndexOfCharNone(s: string, c: char)
    requires c !in s
    ensures IndexOfChar(s, c).None?
  {
  }

  /** A field of a single part. */
  lemma OnePart(field: string, min: int, max: int)
    requires ',' !in field && field != "*"
    ensures FieldMask(field, min, max) ==
            match PartMask(field, min, max)
            case Ok(bits) => Ok(Some(bits))
            case Invalid => Invalid
            case Panic => Panic
  {
    hide PartMask;
    IndexOfCharNone(field, ',');
    assert Split(field, ',') == [field];
    assert [field][..|[field]| - 1] == [];
    assert PartsMask([], min, max) == Ok({});
    if PartMask(field, min, max).Ok? {
      assert {} + PartMask(field, min, max).value == PartMask(field, min, max).value;
    }
  }

  /** A text that panics: a well-formed minute field with the greatest step there is. */
  lemma LargeStepPanics()
    ensures var field := "1/" + Decimal(MAX_INT);
            var fields := [field, "*", "*", "*", "*"];
            && FieldMask(field, 0, 59) == Panic
            && Fields(Join(fields, ' ')) == fields && ScheduleOf(fields) == Panic
  {
    hide PartMask, Decimal, FieldMask;
    var field := "1/" + Decimal(MAX_INT);
    NotInDecimal(MAX_INT, ',');
    assert ',' !in field && |field| > 1;
    PartPanics();
    OnePart(field, 0, 59);
    assert Bounds()[0] == (0, 59);
    forall i | 0 <= i < |field| ensures !IsSpace(field[i]) {
      assert i >= 2 ==> field[i] in Decimal(MAX_INT);
    }
    FieldsJoined([field, "*", "*", "*", "*"]);
  }

  // ---------------------------------------------------------------------------
  // Rendering a mask and reading it back
  // ---------------------------------------------------------------------------

  /** The values of a mask up to `max`, in order. */
  function Describe(m: Mask, max: int): seq<nat>
    decreases max + 1
  {
    if max < 0 then []
    else Describe(m, max - 1) + (if Has(m, max) then [max] else [])
  }

  method DescribeMask(m: Mask, max: nat) returns (out: seq<nat>)
    ensures out == Describe(m, max)
  {
    out := [];
    for v := 0 to max + 1
      invariant out == Describe(m, v - 1)
    {
      if Has(m, v) {
        out := out + [v];
      }
    }
  }

  function Numerals(vs: seq<nat>): (ts: seq<string>)
    ensures |ts| == |vs| && forall i :: 0 <= i < |vs| ==> ts[i] == Decimal(vs[i])
  {
    seq(|vs|, i requires 0 <= i < |vs| => Decimal(vs[i]))
  }

  lemma {:induction false} Described(m: Mask, max: int)
    requires m.Some?
    ensures forall v :: v in Describe(m, max) <==> 0 <= v <= max && v in m.value
    decreases max + 1
  {
    if max >= 0 { Described(m, max - 1); }
  }

  lemma NumeralReads(n: nat, min: int, max: int)
    requires min <= n <= max <= 63
    ensures ReadPart(Decimal(n), min, max) == Ok(Range(n, n, 1))
    ensures PartMask(Decimal(n), min, max) == Ok({n})
  {
    var s := Decimal(n);
    assert forall c :: c in s ==> IsDigit(c);
    assert IsDigit(s[0]);
    AtoiNumeral(n);
    assert "*"[0] == '*';
    assert s != "*";
    assert RangeMask(Range(n, n, 1)) == {n};
  }

  /** "0 0 29 2 *": midnight on 29 February. */
  lemma LeapDayText()
    ensures Fields(Join(["0", "0", "29", "2", "*"], ' ')) == ["0", "0", "29", "2", "*"]
    ensures ScheduleOf(["0", "0", "29", "2", "*"]) == Ok(Schedule(Some({0}), Some({0}), Some({29}), Some({2}), None))
  {
    hide Fields, Join, IsWord, FieldMask, Decimal;
    SmallNumerals();
    FieldsJoined(["0", "0", "29", "2", "*"]);
    NumeralField(0, 0, 59);
    NumeralField(0, 0, 23);
    NumeralField(29, 1, 31);
    NumeralField(2, 1, 12);
    StarField(0, 7);
    assert Bounds() == [(0, 59), (0, 23), (1, 31), (1, 12), (0, 7)];
  }

  lemma SmallNumerals()
    ensures Decimal(0) == "0" && Decimal(2) == "2" && Decimal(29) == "29"
    ensures IsWord("0") && IsWord("2") && IsWord("29") && IsWord("*")
  {
    assert Decimal(29) == Decimal(2) + "9";
  }

  lemma StarField(min: int, max: int)
    ensures FieldMask("*", min, max) == Ok(None)
  {
  }

  lemma NumeralField(n: nat, min: int, max: int)
    requires min <= n <= max <= 63
    ensures FieldMask(Decimal(n), min, max) == Ok(Some({n}))
  {
    NumeralReads(n, min, max);
    NotInDecimal(n, ',');
    NotInDecimal(n, '*');
    OnePart(Decimal(n), min, max);
  }

  function Values(vs: seq<nat>): set<int> {
    set v | v in vs
  }

  predicate AllWithin(vs: seq<nat>, min: int, max: int) {
    forall i :: 0 <= i < |vs| ==> min <= vs[i] <= max
  }

  lemma NumeralsSnoc(vs: seq<nat>, min: int, max: int)
    requires vs != [] && AllWithin(vs, min, max)
    ensures var n := |vs| - 1;
            && Numerals(vs)[..n] == Numerals(vs[..n]) && Numerals(vs)[n] == Decimal(vs[n])
            && Values(vs) == Values(vs[..n]) + {vs[n]}
            && AllWithin(vs[..n], min, max) && min <= vs[n] <= max
  {
    var n := |vs| - 1;
    assert vs == vs[..n] + [vs[n]];
  }

  lemma PartsMaskStep(parts: seq<string>, min: int, max: int, before: set<int>, more: set<int>)
    requires parts != [] && PartsMask(parts[..|parts| - 1], min, max) == Ok(before)
    requires PartMask(parts[|parts| - 1], min, max) == Ok(more)
    ensures PartsMask(parts, min, max) == Ok(before + more)
  {
  }

  lemma {:induction false} NumeralsRead(vs: seq<nat>, min: int, max: int)
    requires 0 <= min <= max <= 63 && AllWithin(vs, min, max)
    ensures PartsMask(Numerals(vs), min, max) == Ok(Values(vs))
  {
    if vs == [] {
      assert Numerals(vs) == [] && Values(vs) == {};
    } else {
      var n := |vs| - 1;
      NumeralsSnoc(vs, min, max);
      NumeralsRead(vs[..n], min, max);
      NumeralReads(vs[n], min, max);
      PartsMaskStep(Numerals(vs), min, max, Values(vs[..n]), {vs[n]});
    }
  }

  lemma NothingDescribed(m: Mask, min: int, max: int)
    requires m.Some? && 0 <= min && forall v :: v in m.value ==> min <= v <= max
    ensures Describe(m, max) == [] ==> m.value == {}
  {
    Described(m, max);
    if Describe(m, max) == [] {
      forall v ensures v !in m.value { assert v !in Describe(m, max); }
    }
  }

  lemma NoSeparator(vs: seq<nat>, t: string)
    requires t in Numerals(vs)
    ensures ',' !in t && '*' !in t
  {
    var i :| 0 <= i < |vs| && Numerals(vs)[i] == t;
    assert forall c :: c in t ==> IsDigit(c);
  }

  /** Joining what `Describe` lists with commas and parsing that gives the mask back. */
  lemma DescribeRoundTrip(m: Mask, min: int, max: int)
    requires m.Some? && m.value != {} && 0 <= min <= max <= 63
    requires forall v :: v in m.value ==> min <= v <= max
    ensures FieldMask(Join(Numerals(Describe(m, max)), ','), min, max) == Ok(m)
  {
    var vs := Describe(m, max);
    var ts := Numerals(vs);
    NothingDescribed(m, min, max);
    DescribedWithin(m, min, max);
    forall t | t in ts ensures ',' !in t && '*' !in t { NoSeparator(vs, t); }
    SplitJoin(ts, ',');
    NumeralsRead(vs, min, max);
    NotStar(ts);
  }

  lemma DescribedWithin(m: Mask, min: int, max: int)
    requires m.Some? && 0 <= min && forall v :: v in m.value ==> min <= v <= max
    ensures AllWithin(Describe(m, max), min, max) && Values(Describe(m, max)) == m.value
  {
    var vs := Describe(m, max);
    Described(m, max);
    forall i | 0 <= i < |vs| ensures min <= vs[i] <= max { assert vs[i] in vs; }
    forall v: int | v in m.value ensures v in Values(vs) {
      var n: nat := v;
      assert n in vs;
    }
  }

  lemma NotStar(ts: seq<string>)
    requires ts != [] && forall t :: t in ts ==> '*' !in t
    ensures Join(ts, ',') != "*"
  {
    assert ts[0] in ts;
    if |ts| > 1 { assert |Join(ts, ',')| > |ts[0]| && Join(ts, ',')[|ts[0]|] == ','; }
  }
}
