/** The event filters of the activity view, carried in a URL parameter. */
module EventFilters {
  import opened Wrappers
  import opened Text

  datatype EventFilter = EventFilter(field: string, op: string, value: string)

  // ---------------------------------------------------------------------------
  // Percent encoding (section 19.2.6 of ECMA-262, section 2.1 of RFC 3986)
  // ---------------------------------------------------------------------------

  /** Characters that `encodeURIComponent` leaves alone. */
  predicate Unreserved(c: char) {
    IsDigit(c) || 'a' <= c <= 'z' || 'A' <= c <= 'Z' || c in "-_.!~*'()"
  }

  function HexDigit(n: nat): (c: char)
    requires n < 16
    ensures HexValue(c) == Some(n) && Unreserved(c)
  {
    if n < 10 then '0' + n as char else 'A' + (n - 10) as char
  }

  function HexValue(c: char): (r: Option<nat>)
    ensures r.Some? ==> r.value < 16
  {
    if IsDigit(c) then Some(c as int - 48)
    else if 'A' <= c <= 'F' then Some(c as int - 55)
    else if 'a' <= c <= 'f' then Some(c as int - 87)
    else None
  }

  type Byte = n: int | 0 <= n < 256

  /** The UTF-8 bytes of a code point. */
  function Utf8(n: nat): (bytes: seq<Byte>)
    requires n < 0x110000
    ensures 1 <= |bytes| <= 4
  {
    if n < 0x80 then [n]
    else if n < 0x800 then [0xC0 + n / 64, 0x80 + n % 64]
    else if n < 0x10000 then [0xE0 + n / 4096, 0x80 + n / 64 % 64, 0x80 + n % 64]
    else [0xF0 + n / 262144, 0x80 + n / 4096 % 64, 0x80 + n / 64 % 64, 0x80 + n % 64]
  }

  function Escape(b: Byte): string
  {
    ['%', HexDigit(b / 16), HexDigit(b % 16)]
  }

  function Escapes(bytes: seq<Byte>): string
  {
    if bytes == [] then "" else Escape(bytes[0]) + Escapes(bytes[1..])
  }

  function EncodeChar(c: char): string {
    if Unreserved(c) then [c] else Escapes(Utf8(c as int))
  }

  /** `encodeURIComponent` */
  function Encode(s: string): string {
    if s == "" then "" else EncodeChar(s[0]) + Encode(s[1..])
  }

  predicate Continuation(b: Byte) {
    0x80 <= b < 0xC0
  }

  /** How many bytes the character that starts with this byte has; 0 when none can. */
  function SequenceLength(b: Byte): nat {
    if b < 0x80 then 1
    else if 0xC0 <= b < 0xE0 then 2
    else if 0xE0 <= b < 0xF0 then 3
    else if 0xF0 <= b < 0xF8 then 4
    else 0
  }

  /** A code point that a character may have. */
  predicate Scalar(n: nat) {
    n < 0xD800 || 0xE000 <= n < 0x110000
  }

  /** The character these bytes are the UTF-8 form of; overlong forms have none. */
  function FromUtf8(bytes: seq<Byte>): Option<char> {
    if bytes == [] || SequenceLength(bytes[0]) != |bytes| then None
    else if exists i :: 1 <= i < |bytes| && !Continuation(bytes[i]) then None
    else
      var n: int :=
        if |bytes| == 1 then bytes[0] as int
        else if |bytes| == 2 then (bytes[0] as int - 0xC0) * 64 + (bytes[1] as int - 0x80)
        else if |bytes| == 3 then (bytes[0] as int - 0xE0) * 4096 + (bytes[1] as int - 0x80) * 64 + (bytes[2] as int - 0x80)
        else (bytes[0] as int - 0xF0) * 262144 + (bytes[1] as int - 0x80) * 4096 + (bytes[2] as int - 0x80) * 64 + (bytes[3] as int - 0x80);
      var least: int := [0 as int, 0x80, 0x800, 0x10000][|bytes| - 1];
      if n < least || n < 0 || !Scalar(n) then None else Some(n as char)
  }

  function ReadEscape(s: string): (r: Option<Byte>)
    ensures r.Some? ==> |s| >= 3
  {
    if |s| < 3 || s[0] != '%' then None
    else
      var h, l := HexValue(s[1]), HexValue(s[2]);
      if h.None? || l.None? then None else Some(h.value * 16 + l.value)
  }

  function ReadEscapes(s: string, n: nat): (r: Option<seq<Byte>>)
    ensures r.Some? ==> |s| >= 3 * n
  {
    if n == 0 then Some([])
    else
      var b := ReadEscape(s);
      if b.None? then None
      else
        var rest := ReadEscapes(s[3..], n - 1);
        if rest.None? then None else Some([b.value] + rest.value)
  }

  function Cons(c: char, rest: Option<string>): Option<string> {
    if rest.None? then None else Some([c] + rest.value)
  }

  /** `decodeURIComponent`; None is its URIError. */
  function Decode(s: string): Option<string>
    decreases |s|
  {
    if s == "" then Some("")
    else if s[0] != '%' then Cons(s[0], Decode(s[1..]))
    else
      var first := ReadEscape(s);
      if first.None? then None
      else
        var n := SequenceLength(first.value);
        if n == 0 then None
        else
          var bytes := ReadEscapes(s, n);
          if bytes.None? then None
          else
            var c := FromUtf8(bytes.value);
            if c.None? then None else Cons(c.value, Decode(s[3 * n..]))
  }

  // ---------------------------------------------------------------------------
  // The round trip of one component
  // ---------------------------------------------------------------------------

  lemma CharOfUtf8(c: char)
    ensures FromUtf8(Utf8(c as int)) == Some(c)
    ensures SequenceLength(Utf8(c as int)[0]) == |Utf8(c as int)|
  {
    var n := c as int;
    if n < 0x800 {
      ShortUtf8(n);
    } else {
      LongUtf8(n);
    }
  }

  lemma ShortUtf8(n: nat)
    requires n < 0x800
    ensures FromUtf8(Utf8(n)) == Some(n as char)
    ensures SequenceLength(Utf8(n)[0]) == |Utf8(n)|
  {
    var bytes := Utf8(n);
    assert forall i :: 1 <= i < |bytes| ==> Continuation(bytes[i]);
  }

  lemma LongUtf8(n: nat)
    requires 0x800 <= n && Scalar(n)
    ensures FromUtf8(Utf8(n)) == Some(n as char)
    ensures SequenceLength(Utf8(n)[0]) == |Utf8(n)|
  {
    var bytes := Utf8(n);
    Digits64(n);
    assert forall i :: 1 <= i < |bytes| ==> Continuation(bytes[i]);
  }

  lemma Digits64(n: nat)
    ensures n / 4096 == n / 64 / 64 && n / 262144 == n / 64 / 64 / 64
    ensures n == n / 4096 * 4096 + n / 64 % 64 * 64 + n % 64
    ensures n == n / 262144 * 262144 + n / 4096 % 64 * 4096 + n / 64 % 64 * 64 + n % 64
  {
  }

  lemma {:induction false} EscapesRead(bytes: seq<Byte>, rest: string)
    ensures |Escapes(bytes)| == 3 * |bytes|
    ensures ReadEscapes(Escapes(bytes) + rest, |bytes|) == Some(bytes)
  {
    if bytes != [] {
      var s := Escapes(bytes) + rest;
      EscapesRead(bytes[1..], rest);
      assert s == Escape(bytes[0]) + (Escapes(bytes[1..]) + rest);
      assert s[3..] == Escapes(bytes[1..]) + rest;
      assert ReadEscape(s) == Some(bytes[0]);
      assert bytes == [bytes[0]] + bytes[1..];
    }
  }

  lemma DecodeEncodedChar(c: char, rest: string)
    ensures Decode(EncodeChar(c) + rest) == Cons(c, Decode(rest))
  {
    var s := EncodeChar(c) + rest;
    if Unreserved(c) {
      assert s[1..] == rest;
    } else {
      var bytes := Utf8(c as int);
      EscapesRead(bytes, rest);
      CharOfUtf8(c);
      assert s[0] == '%' && ReadEscape(s) == Some(bytes[0]) by {
        assert Escapes(bytes) == Escape(bytes[0]) + Escapes(bytes[1..]);
      }
      assert s[3 * |bytes|..] == rest;
    }
  }

  /** Decoding an encoded component gives it back, whatever characters it has. */
  lemma {:induction false} DecodeEncode(s: string)
    ensures Decode(Encode(s)) == Some(s)
  {
    if s != "" {
      DecodeEncode(s[1..]);
      DecodeEncodedChar(s[0], Encode(s[1..]));
      assert s == [s[0]] + s[1..];
    }
  }

  /** The separators never survive encoding. */
  lemma {:induction false} NoSeparators(s: string)
    ensures ':' !in Encode(s) && '|' !in Encode(s)
    ensures s != "" ==> Encode(s) != ""
  {
    if s != "" {
      NoSeparators(s[1..]);
      if !Unreserved(s[0]) { EscapesPlain(Utf8(s[0] as int)); }
    }
  }

  lemma {:induction false} EscapesPlain(bytes: seq<Byte>)
    ensures forall c :: c in Escapes(bytes) ==> c == '%' || Unreserved(c)
  {
    if bytes != [] {
      EscapesPlain(bytes[1..]);
    }
  }

  // ---------------------------------------------------------------------------
  // Lists of filters
  // ---------------------------------------------------------------------------

  predicate Complete(f: EventFilter) {
    f.field != "" && f.op != "" && f.value != ""
  }

  function Completes(fs: seq<EventFilter>): (cs: seq<EventFilter>)
    ensures forall c :: c in cs ==> Complete(c)
  {
    if fs == [] then []
    else (if Complete(fs[0]) then [fs[0]] else []) + Completes(fs[1..])
  }

  function EncodeOne(f: EventFilter): string {
    Encode(f.field) + ":" + Encode(f.op) + ":" + Encode(f.value)
  }

  function EncodeAll(fs: seq<EventFilter>): seq<string> {
    if fs == [] then [] else [EncodeOne(fs[0])] + EncodeAll(fs[1..])
  }

  function EncodeEventFilters(fs: seq<EventFilter>): string {
    Join(EncodeAll(Completes(fs)), '|')
  }

  datatype Parsed = Thrown | Malformed | Parsed(filter: EventFilter)

  function ParseOne(s: string): Parsed {
    var i1 := IndexOfChar(s, ':');
    if i1.None? then Malformed
    else
      var rest := s[i1.value + 1..];
      var i2 := IndexOfChar(rest, ':');
      if i2.None? then Malformed
      else
        var field, op, value := Decode(s[..i1.value]), Decode(rest[..i2.value]), Decode(rest[i2.value + 1..]);
        if field.None? || op.None? || value.None? then Thrown
        else Parsed(EventFilter(field.value, op.value, value.value))
  }

  /** None when some part throws. */
  function ParseParts(parts: seq<string>): Option<seq<EventFilter>> {
    if parts == [] then Some([])
    else
      var first, rest := ParseOne(parts[0]), ParseParts(parts[1..]);
      if first.Thrown? || rest.None? then None
      else if first.Parsed? && Complete(first.filter) then Some([first.filter] + rest.value)
      else rest
  }

  function ParseEventFilters(param: Option<string>): Option<seq<EventFilter>> {
    if param.None? || param.value == "" then Some([])
    else ParseParts(Split(param.value, '|'))
  }

  lemma FirstColon(a: string, rest: string)
    requires ':' !in a
    ensures var s := a + ":" + rest;
            IndexOfChar(s, ':') == Some(|a|) && s[..|a|] == a && s[|a| + 1..] == rest
  {
    var s := a + ":" + rest;
    assert s[..|a|] == a;
    IndexOfCharUnique(s, ':', |a|);
  }

  lemma EncodedOnePlain(f: EventFilter)
    ensures '|' !in EncodeOne(f) && EncodeOne(f) != ""
  {
    hide Encode;
    NoSeparators(f.field);
    NoSeparators(f.op);
    NoSeparators(f.value);
  }

  /** Three parts without colons, joined by colons, are read apart again. */
  lemma ParseThree(a: string, b: string, c: string)
    requires ':' !in a && ':' !in b
    ensures ParseOne(a + ":" + b + ":" + c) ==
            var field, op, value := Decode(a), Decode(b), Decode(c);
            if field.None? || op.None? || value.None? then Thrown
            else Parsed(EventFilter(field.value, op.value, value.value))
  {
    hide Decode, IndexOfChar;
    var rest := b + ":" + c;
    assert a + ":" + b + ":" + c == a + ":" + rest;
    FirstColon(a, rest);
    FirstColon(b, c);
  }

  lemma ParseEncodedOne(f: EventFilter)
    ensures ParseOne(EncodeOne(f)) == Parsed(f)
  {
    hide Encode, Decode, ParseOne;
    NoSeparators(f.field);
    NoSeparators(f.op);
    DecodeEncode(f.field);
    DecodeEncode(f.op);
    DecodeEncode(f.value);
    ParseThree(Encode(f.field), Encode(f.op), Encode(f.value));
  }

  lemma ParseHead(part: string, rest: seq<string>)
    ensures ParseParts([part] + rest) ==
            var first, more := ParseOne(part), ParseParts(rest);
            if first.Thrown? || more.None? then None
            else if first.Parsed? && Complete(first.filter) then Some([first.filter] + more.value)
            else more
  {
    hide ParseOne, Complete;
    assert ([part] + rest)[1..] == rest;
  }

  predicate AllComplete(fs: seq<EventFilter>) {
    forall f :: f in fs ==> Complete(f)
  }

  lemma CompleteParts(fs: seq<EventFilter>)
    requires AllComplete(fs) && fs != []
    ensures Complete(fs[0]) && AllComplete(fs[1..])
  {
    assert fs[0] in fs;
  }

  lemma {:induction false} ParseEncodedParts(fs: seq<EventFilter>)
    requires AllComplete(fs)
    ensures ParseParts(EncodeAll(fs)) == Some(fs)
  {
    if fs != [] {
      hide EncodeOne, ParseOne, Complete, AllComplete, ParseParts;
      CompleteParts(fs);
      ParseEncodedOne(fs[0]);
      ParseEncodedParts(fs[1..]);
      ParseHead(EncodeOne(fs[0]), EncodeAll(fs[1..]));
      assert fs == [fs[0]] + fs[1..];
    }
  }

  lemma {:induction false} EncodedAllPlain(fs: seq<EventFilter>)
    ensures |EncodeAll(fs)| == |fs|
    ensures forall part :: part in EncodeAll(fs) ==> '|' !in part && part != ""
  {
    if fs != [] {
      hide EncodeOne;
      EncodedOnePlain(fs[0]);
      EncodedAllPlain(fs[1..]);
    }
  }

  /** Parsing what was encoded gives exactly the complete filters, in order, for every list. */
  lemma FiltersRoundTrip(fs: seq<EventFilter>)
    ensures ParseEventFilters(Some(EncodeEventFilters(fs))) == Some(Completes(fs))
  {
    hide EncodeAll, ParseParts, Split;
    var cs := Completes(fs);
    var parts := EncodeAll(cs);
    if cs != [] {
      EncodedAllPlain(cs);
      assert parts[0] in parts;
      assert Join(parts, '|') != "";
      SplitJoin(parts, '|');
      ParseEncodedParts(cs);
    } else {
      assert parts == [] by { NothingEncoded(); }
    }
  }

  lemma NothingEncoded()
    ensures EncodeAll([]) == []
  {
  }

  // ---------------------------------------------------------------------------
  // What the encoded text looks like
  // ---------------------------------------------------------------------------

  /** What is kept is exactly the complete filters, each in its place. */
  lemma {:induction false} CompletesHold(fs: seq<EventFilter>)
    ensures forall f :: f in Completes(fs) <==> f in fs && f.field != "" && f.op != "" && f.value != ""
  {
    if fs != [] {
      CompletesHold(fs[1..]);
      assert forall f :: f in fs <==> f == fs[0] || f in fs[1..];
    }
  }

  lemma {:induction false} CompletesAppend(fs: seq<EventFilter>, more: seq<EventFilter>)
    ensures Completes(fs + more) == Completes(fs) + Completes(more)
  {
    hide Complete;
    if fs == [] {
      assert fs + more == more;
    } else {
      assert (fs + more)[1..] == fs[1..] + more;
      CompletesAppend(fs[1..], more);
    }
  }

  lemma {:induction false} CompletesAll(fs: seq<EventFilter>)
    requires AllComplete(fs)
    ensures Completes(fs) == fs
  {
    hide Complete, AllComplete;
    if fs != [] {
      CompleteParts(fs);
      CompletesAll(fs[1..]);
      assert fs == [fs[0]] + fs[1..];
    }
  }

  lemma {:induction false} UnreservedStays(s: string)
    requires forall c :: c in s ==> Unreserved(c)
    ensures Encode(s) == s
  {
    if s != "" {
      UnreservedStays(s[1..]);
      assert s == [s[0]] + s[1..];
    }
  }

  /** The forms of section 2.1 of RFC 3986 over UTF-8: an escape for each byte, two capital digits. */
  lemma EncodedForms()
    ensures EncodeChar(' ') == "%20" && EncodeChar(':') == "%3A" && EncodeChar('|') == "%7C" && EncodeChar('%') == "%25"
    ensures EncodeChar(0xE9 as char) == "%C3" + "%A9"
    ensures EncodeChar(0x20AC as char) == "%E2" + ("%82" + "%AC")
  {
    hide Escape, Escapes, Unreserved;
    Reserved();
    EscapeTexts();
    OneEscape(0x20);
    OneEscape(0x3A);
    OneEscape(0x7C);
    OneEscape(0x25);
    TwoEscapes(0xC3, 0xA9);
    ThreeEscapes(0xE2, 0x82, 0xAC);
    assert Utf8(0xE9) == [0xC3, 0xA9] && Utf8(0x20AC) == [0xE2, 0x82, 0xAC];
  }

  lemma Reserved()
    ensures !Unreserved(' ') && !Unreserved(':') && !Unreserved('|') && !Unreserved('%')
    ensures !Unreserved(0xE9 as char) && !Unreserved(0x20AC as char)
  {
  }

  lemma EscapeTexts()
    ensures Escape(0x20) == "%20" && Escape(0x3A) == "%3A" && Escape(0x7C) == "%7C" && Escape(0x25) == "%25"
    ensures Escape(0xC3) == "%C3" && Escape(0xA9) == "%A9"
    ensures Escape(0xE2) == "%E2" && Escape(0x82) == "%82" && Escape(0xAC) == "%AC"
  {
  }

  lemma OneEscape(a: Byte)
    ensures Escapes([a]) == Escape(a)
  {
    hide Escape;
    assert [a][1..] == [];
  }

  lemma TwoEscapes(a: Byte, b: Byte)
    ensures Escapes([a, b]) == Escape(a) + Escape(b)
  {
    hide Escape;
    assert [a, b][1..] == [b];
    OneEscape(b);
  }

  lemma ThreeEscapes(a: Byte, b: Byte, c: Byte)
    ensures Escapes([a, b, c]) == Escape(a) + (Escape(b) + Escape(c))
  {
    hide Escape;
    assert [a, b, c][1..] == [b, c];
    TwoEscapes(b, c);
  }

  /** A part with fewer than two colons is dropped, and so is one with an empty side. */
  lemma MalformedDropped(a: string, b: string)
    requires ':' !in a && ':' !in b
    ensures ParseOne(a) == Malformed && ParseOne(a + ":" + b) == Malformed
    ensures ParseParts([a]) == Some([]) && ParseParts([a + ":" + b]) == Some([])
  {
    FirstColon(a, b);
    NoColon(a);
    NoColon(b);
    assert [a] == [a] + [] && [a + ":" + b] == [a + ":" + b] + [];
    ParseHead(a, []);
    ParseHead(a + ":" + b, []);
  }

  lemma NoColon(s: string)
    requires ':' !in s
    ensures IndexOfChar(s, ':').None?
  {
  }
}
