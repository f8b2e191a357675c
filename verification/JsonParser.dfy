/** The recursive-descent parser, and the proof that it reads back every printed text. */
module JsonParser {
  import opened Json

  /** What a parse leaves behind: the value, and the position after its last character. */
  datatype Parsed<+T> = Fail | Ok(value: T, end: nat)

  // ---- the parser as functions of the text and a position

  function Skip(s: string, i: nat): (j: nat)
    ensures j >= i
    ensures At(s, j) == NUL || At(s, j) as int > 32
    decreases |s| - i
  {
    if At(s, i) != NUL && At(s, i) as int <= 32 then Skip(s, i + 1) else i
  }

  predicate IsDigit(c: char) { '0' <= c <= '9' }

  function DigitValue(c: char): nat
    requires IsDigit(c)
  {
    c as int - '0' as int
  }

  /** Reads decimal digits into the accumulator `n`. */
  function Digits(s: string, i: nat, n: nat): (r: (nat, nat))
    ensures r.1 >= i && !IsDigit(At(s, r.1))
    decreases |s| - i
  {
    if IsDigit(At(s, i)) then Digits(s, i + 1, n * 10 + DigitValue(At(s, i))) else (n, i)
  }

  /** The exponent part at `i`, if there is one: its value and the position after it. */
  function Exponent(s: string, i: nat): (r: (int, nat))
    ensures r.1 >= i
  {
    if At(s, i) == 'e' || At(s, i) == 'E' then
      var j := if At(s, i + 1) == '+' || At(s, i + 1) == '-' then i + 2 else i + 1;
      var (n, k) := Digits(s, j, 0);
      (if At(s, i + 1) == '-' then 0 - n as int else n, k)
    else (0, i)
  }

  function ParseNumber(s: string, i: nat): (r: Parsed<Json>)
    requires At(s, i) == '-' || IsDigit(At(s, i))
    ensures r.Ok? && r.end > i
  {
    var a := if At(s, i) == '-' then i + 1 else i;
    var b := if At(s, a) == '0' then a + 1 else a;
    var (n, c) := if '1' <= At(s, b) <= '9' then Digits(s, b, 0) else (0, b);
    var (m, d) := if At(s, c) == '.' && IsDigit(At(s, c + 1)) then Digits(s, c + 1, n) else (n, c);
    var scale := if d > c then d - (c + 1) else 0;
    var (e, k) := Exponent(s, d);
    var mantissa: int := if At(s, i) == '-' then 0 - m as int else m;
    Ok(if e - scale == 0 then Number(mantissa) else Decimal(mantissa, e - scale), k)
  }

  function HexValue(c: char): (v: Option<nat>)
    ensures v.Some? ==> v.value < 16
  {
    if '0' <= c <= '9' then Some(c as int - '0' as int)
    else if 'A' <= c <= 'F' then Some(10 + c as int - 'A' as int)
    else if 'a' <= c <= 'f' then Some(10 + c as int - 'a' as int)
    else None
  }

  /** Four hexadecimal digits; zero if any of them is not one. */
  function ParseHex4(s: string, i: nat): (h: nat)
    ensures h <= 0xFFFF
  {
    match (HexValue(At(s, i)), HexValue(At(s, i + 1)), HexValue(At(s, i + 2)), HexValue(At(s, i + 3)))
    case (Some(a), Some(b), Some(c), Some(d)) => ((a * 16 + b) * 16 + c) * 16 + d
    case _ => 0
  }

  /** The bytes the parser stores for a code point: its lead byte and continuation bytes. */
  function Utf8(uc: nat): string
    requires uc < 0x11_0000
  {
    if uc < 0x80 then [uc as char]
    else if uc < 0x800 then [(0xC0 + uc / 64) as char, (0x80 + uc % 64) as char]
    else if uc < 0x1_0000 then [(0xE0 + uc / 4096) as char, (0x80 + uc / 64 % 64) as char, (0x80 + uc % 64) as char]
    else [(0xF0 + uc / 262144) as char, (0x80 + uc / 4096 % 64) as char, (0x80 + uc / 64 % 64) as char,
          (0x80 + uc % 64) as char]
  }

  /** The escape whose backslash is at `i` and whose letter is `u`: what it adds to the
      string, and the position after it.  A bad first half adds nothing and is skipped; so
      does a surrogate pair with a bad second half. */
  function UnicodeEscape(s: string, i: nat): (r: (string, nat))
    ensures r.1 > i
  {
    var uc := ParseHex4(s, i + 2);
    if 0xDC00 <= uc <= 0xDFFF || uc == 0 then ("", i + 6)
    else if 0xD800 <= uc <= 0xDBFF then
      if At(s, i + 6) != '\\' || At(s, i + 7) != 'u' then ("", i + 6)
      else
        var uc2 := ParseHex4(s, i + 8);
        if uc2 < 0xDC00 || uc2 > 0xDFFF then ("", i + 12)
        else (Utf8(0x1_0000 + uc % 1024 * 1024 + uc2 % 1024), i + 12)
    else (Utf8(uc), i + 6)
  }

  /** The escape whose backslash is at `i`. */
  function Escape(s: string, i: nat): (r: (string, nat))
    ensures r.1 > i
  {
    var c := At(s, i + 1);
    if c == 'u' then UnicodeEscape(s, i)
    else (if c == 'b' then [BACKSPACE] else if c == 'f' then [FORM_FEED] else if c == 'n' then "\n"
          else if c == 'r' then "\r" else if c == 't' then "\t" else [c], i + 2)
  }

  /** The characters of a string from position `i` on, added to `out`. */
  function Chars(s: string, i: nat, out: string): (r: (string, nat))
    ensures r.1 >= i
    decreases |s| - i
  {
    var c := At(s, i);
    if c == '"' || c == NUL then (out, i)
    else if c != '\\' then Chars(s, i + 1, out + [c])
    else var (e, j) := Escape(s, i); Chars(s, j, out + e)
  }

  function ParseString(s: string, i: nat): (r: Parsed<string>)
    ensures r.Ok? ==> r.end > i
  {
    if At(s, i) != '"' then Fail
    else
      var (out, j) := Chars(s, i + 1, "");
      Ok(out, if At(s, j) == '"' then j + 1 else j)
  }

  predicate StartsWith(s: string, i: nat, word: string) {
    i + |word| <= |s| && s[i..i + |word|] == word
  }

  function Rest(s: string, i: nat): nat {
    if i < |s| then |s| - i else 0
  }

  function ParseValue(s: string, i: nat): (r: Parsed<Json>)
    ensures r.Ok? ==> r.end > i
    decreases Rest(s, i), 1
  {
    if StartsWith(s, i, "null") then Ok(Null, i + 4)
    else if StartsWith(s, i, "false") then Ok(False, i + 5)
    else if StartsWith(s, i, "true") then Ok(True, i + 4)
    else if At(s, i) == '"' then
      var r := ParseString(s, i);
      if r.Ok? then Ok(String(r.value), r.end) else Fail
    else if At(s, i) == '-' || IsDigit(At(s, i)) then ParseNumber(s, i)
    else if At(s, i) == '[' then ParseArray(s, i)
    else if At(s, i) == '{' then ParseObject(s, i)
    else Fail
  }

  function ParseArray(s: string, i: nat): (r: Parsed<Json>)
    requires At(s, i) == '['
    ensures r.Ok? ==> r.end > i
    decreases Rest(s, i), 0
  {
    var j := Skip(s, i + 1);
    if At(s, j) == ']' then Ok(Array([]), j + 1) else ParseItems(s, j, [])
  }

  /** The items from position `i` on, after the items already in `done`. */
  function ParseItems(s: string, i: nat, done: seq<Json>): (r: Parsed<Json>)
    ensures r.Ok? ==> r.end > i
    decreases Rest(s, i), 2
  {
    var v := ParseValue(s, Skip(s, i));
    if v.Fail? then Fail
    else
      var j := Skip(s, v.end);
      if At(s, j) == ',' then ParseItems(s, j + 1, done + [v.value])
      else if At(s, j) == ']' then Ok(Array(done + [v.value]), j + 1)
      else Fail
  }

  function ParseObject(s: string, i: nat): (r: Parsed<Json>)
    requires At(s, i) == '{'
    ensures r.Ok? ==> r.end > i
    decreases Rest(s, i), 0
  {
    var j := Skip(s, i + 1);
    if At(s, j) == '}' then Ok(Object([]), j + 1) else ParseMembers(s, j, [])
  }

  function ParseMembers(s: string, i: nat, done: seq<Member>): (r: Parsed<Json>)
    ensures r.Ok? ==> r.end > i
    decreases Rest(s, i), 2
  {
    var k := ParseString(s, Skip(s, i));
    if k.Fail? then Fail
    else
      var c := Skip(s, k.end);
      if At(s, c) != ':' then Fail
      else
        var v := ParseValue(s, Skip(s, c + 1));
        if v.Fail? then Fail
        else
          var j := Skip(s, v.end);
          if At(s, j) == ',' then ParseMembers(s, j + 1, done + [Member(k.value, v.value)])
          else if At(s, j) == '}' then Ok(Object(done + [Member(k.value, v.value)]), j + 1)
          else Fail
  }

  /** The whole text: leading white space, a value, and with `all` nothing but white space
      after it. */
  function Parse(s: string, all: bool): Parsed<Json> {
    var v := ParseValue(s, Skip(s, 0));
    if v.Fail? then Fail
    else if all then
      var j := Skip(s, v.end);
      if At(s, j) != NUL then Fail else Ok(v.value, j)
    else v
  }

  // ---- reading back what was printed

  lemma {:induction false} SkipOver(s: string, i: nat, space: string)
    requires Reads(s, i, space)
    requires forall k :: 0 <= k < |space| ==> space[k] != NUL && space[k] as int <= 32
    ensures Skip(s, i) == Skip(s, i + |space|)
    decreases |space|
  {
    if space != "" {
      ReadsAt(s, i, space, 0);
      assert space == space[..1] + space[1..];
      ReadsSplit(s, i, space[..1], space[1..]);
      SkipOver(s, i + 1, space[1..]);
    }
  }

  lemma SkipStays(s: string, i: nat)
    requires At(s, i) as int > 32
    ensures Skip(s, i) == i
  {
  }

  lemma EscapeReadsBack(s: string, i: nat, c: char)
    requires NeedsEscape(c) && c != NUL && Reads(s, i, Escaped(c))
    ensures At(s, i) == '\\' && Escape(s, i) == ([c], i + |Escaped(c)|)
  {
    var e := Escaped(c);
    ReadsAt(s, i, e, 0);
    ReadsAt(s, i, e, 1);
    if !HasShortEscape(c) {
      ReadsAt(s, i, e, 2);
      ReadsAt(s, i, e, 3);
      ReadsAt(s, i, e, 4);
      ReadsAt(s, i, e, 5);
      var n := c as int;
      assert HexValue(HexChar(n / 16)) == Some(n / 16) && HexValue(HexChar(n % 16)) == Some(n % 16);
      assert HexValue('0') == Some(0);
      assert ParseHex4(s, i + 2) == n;
    }
  }

  /** One printed character is read in one turn of the loop. */
  lemma CharReadsBack(s: string, i: nat, c: char, out: string)
    requires c != NUL && Reads(s, i, Escaped(c))
    ensures Chars(s, i, out) == Chars(s, i + |Escaped(c)|, out + [c])
  {
    hide Reads, Escape;
    if NeedsEscape(c) {
      EscapeReadsBack(s, i, c);
      hide Escaped;
    } else {
      ReadsAt(s, i, Escaped(c), 0);
    }
  }

  lemma {:induction false} CharsReadBack(s: string, i: nat, text: string, out: string)
    requires NulFree(text) && Reads(s, i, EscapedAll(text))
    ensures Chars(s, i, out) == Chars(s, i + |EscapedAll(text)|, out + text)
    decreases |text|
  {
    hide Reads, Chars, Escaped;
    if text == "" {
      assert out + text == out;
    } else {
      var c, rest := text[0], text[1..];
      ReadsSplit(s, i, Escaped(c), EscapedAll(rest));
      CharReadsBack(s, i, c, out);
      CharsReadBack(s, i + |Escaped(c)|, rest, out + [c]);
      assert out + text == out + [c] + rest;
    }
  }

  lemma CharsStop(s: string, i: nat, out: string)
    requires At(s, i) == '"'
    ensures Chars(s, i, out) == (out, i)
  {
  }

  lemma StringReadsBack(s: string, i: nat, text: string)
    requires NulFree(text) && Reads(s, i, StringText(text))
    ensures ParseString(s, i) == Ok(text, i + |StringText(text)|)
    ensures At(s, i) == '"'
  {
    hide Reads, Chars, EscapedAll;
    var body := EscapedAll(text);
    ReadsSplit(s, i, "\"", body + "\"");
    ReadsSplit(s, i + 1, body, "\"");
    ReadsAt(s, i, "\"", 0);
    ReadsAt(s, i + 1 + |body|, "\"", 0);
    CharsReadBack(s, i + 1, text, "");
    CharsStop(s, i + 1 + |body|, text);
    assert "" + text == text;
  }

  lemma {:induction false} DigitsReadBack(s: string, i: nat, n: nat, a: nat)
    requires Reads(s, i, NatText(n))
    ensures Digits(s, i, a) == Digits(s, i + |NatText(n)|, a * Pow10(|NatText(n)|) + n)
    decreases n
  {
    hide Reads;
    if n < 10 {
      ReadsAt(s, i, NatText(n), 0);
      assert Pow10(1) == 10;
    } else {
      var t := NatText(n / 10);
      ReadsSplit(s, i, t, [DigitChar(n % 10)]);
      DigitsReadBack(s, i, n / 10, a);
      ReadsAt(s, i + |t|, [DigitChar(n % 10)], 0);
      var p := Pow10(|t|);
      assert |NatText(n)| == |t| + 1 && Pow10(|t| + 1) == 10 * p;
      ShiftDigit(a, p, n);
    }
  }

  lemma ShiftDigit(a: nat, p: nat, n: nat)
    ensures (a * p + n / 10) * 10 + n % 10 == a * (10 * p) + n
  {
    var q := a * p;
    assert a * (10 * p) == 10 * q;
  }

  /** A character that cannot continue a number. */
  predicate EndsNumber(c: char) {
    !IsDigit(c) && c != '.' && c != 'e' && c != 'E'
  }

  lemma NatReadsBack(s: string, i: nat, n: nat)
    requires Reads(s, i, NatText(n)) && EndsNumber(At(s, i + |NatText(n)|))
    ensures n > 0 ==> At(s, i) != '0' && Digits(s, i, 0) == (n, i + |NatText(n)|)
    ensures n == 0 ==> At(s, i) == '0' && |NatText(n)| == 1
    ensures IsDigit(At(s, i)) && (n > 0 ==> '1' <= At(s, i) <= '9')
  {
    ReadsAt(s, i, NatText(n), 0);
    DigitsReadBack(s, i, n, 0);
  }

  lemma NumberReadsBack(s: string, i: nat, n: int)
    requires Reads(s, i, IntText(n)) && EndsNumber(At(s, i + |IntText(n)|))
    ensures At(s, i) == '-' || IsDigit(At(s, i))
    ensures ParseNumber(s, i) == Ok(Number(n), i + |IntText(n)|)
  {
    if n < 0 {
      ReadsSplit(s, i, "-", NatText(-n));
      ReadsAt(s, i, "-", 0);
      NatReadsBack(s, i + 1, -n);
    } else {
      NatReadsBack(s, i, n);
    }
  }

  /** A printed value starts with a character that is neither white space nor a closer. */
  lemma TextHead(s: string, i: nat, t: Json, depth: nat, fmt: bool)
    requires Printable(t) && Reads(s, i, Text(t, depth, fmt))
    ensures Text(t, depth, fmt) != ""
    ensures At(s, i) as int > 32 && At(s, i) != ']' && At(s, i) != '}'
  {
    var x := Text(t, depth, fmt);
    assert x != "" && x[0] as int > 32 && x[0] != ']' && x[0] != '}';
    ReadsAt(s, i, x, 0);
  }

  lemma NoWord(s: string, i: nat)
    ensures StartsWith(s, i, "null") ==> At(s, i) == 'n'
    ensures StartsWith(s, i, "false") ==> At(s, i) == 'f'
    ensures StartsWith(s, i, "true") ==> At(s, i) == 't'
  {
    if StartsWith(s, i, "null") { assert s[i..i + 4][0] == 'n'; }
    if StartsWith(s, i, "false") { assert s[i..i + 5][0] == 'f'; }
    if StartsWith(s, i, "true") { assert s[i..i + 4][0] == 't'; }
  }

  /** The text printed for any printable tree, at any depth and in either format, wherever it
      stands in a longer text that does not run on into a number, is parsed back to that tree,
      up to exactly its last character. */
  lemma {:induction false} ValueReadsBack(s: string, i: nat, t: Json, depth: nat, fmt: bool)
    requires Printable(t) && Reads(s, i, Text(t, depth, fmt))
    requires EndsNumber(At(s, i + |Text(t, depth, fmt)|))
    ensures ParseValue(s, i) == Ok(t, i + |Text(t, depth, fmt)|)
    decreases t, 1
  {
    match t
    case Null => ReadsAt(s, i, "null", 0); NoWord(s, i);
    case False => ReadsAt(s, i, "false", 0); NoWord(s, i);
    case True => ReadsAt(s, i, "true", 0); NoWord(s, i);
    case Number(n) =>
      NumberReadsBack(s, i, n);
      NoWord(s, i);
    case String(x) =>
      StringReadsBack(s, i, x);
      NoWord(s, i);
    case Array(items) => ArrayReadsBack(s, i, items, depth, fmt);
    case Object(members) => ObjectReadsBack(s, i, members, depth, fmt);
  }

  lemma {:induction false} ArrayReadsBack(s: string, i: nat, items: seq<Json>, depth: nat, fmt: bool)
    requires Printable(Array(items)) && Reads(s, i, Text(Array(items), depth, fmt))
    ensures ParseValue(s, i) == Ok(Array(items), i + |Text(Array(items), depth, fmt)|)
    decreases items, 3
  {
    hide Reads, ParseItems, ItemsText, Skip;
    var body := ItemsText(items, depth + 1, fmt);
    ReadsSplit(s, i, "[", body + "]");
    ReadsSplit(s, i + 1, body, "]");
    ReadsAt(s, i, "[", 0);
    ReadsAt(s, i + 1 + |body|, "]", 0);
    NoWord(s, i);
    if items != [] {
      ItemsReadBack(s, i + 1, items, [], depth + 1, fmt);
      SkipStays(s, i + 1);
      assert [] + items == items;
    } else {
      assert body == "" by { EmptyTexts(depth + 1, fmt); }
      SkipStays(s, i + 1);
    }
  }

  lemma EmptyTexts(depth: nat, fmt: bool)
    ensures ItemsText([], depth, fmt) == "" && MembersText([], depth, fmt) == ""
  {
  }

  /** One step of the item loop. */
  lemma ItemsStep(s: string, i: nat, done: seq<Json>, v: Json, end: nat)
    requires ParseValue(s, Skip(s, i)) == Ok(v, end)
    ensures At(s, Skip(s, end)) == ',' ==> ParseItems(s, i, done) == ParseItems(s, Skip(s, end) + 1, done + [v])
    ensures At(s, Skip(s, end)) == ']' ==> ParseItems(s, i, done) == Ok(Array(done + [v]), Skip(s, end) + 1)
  {
    hide Skip, ParseValue;
  }

  lemma ItemsStartAnywhere(s: string, i: nat, j: nat, done: seq<Json>)
    requires Skip(s, i) == Skip(s, j)
    ensures ParseItems(s, i, done) == ParseItems(s, j, done)
  {
    hide Skip, ParseValue, At;
  }

  lemma PrintableItems(items: seq<Json>)
    requires items != [] && Printable(Array(items))
    ensures Printable(items[0]) && Printable(Array(items[1..]))
  {
  }

  lemma {:induction false} ItemsReadBack(s: string, i: nat, items: seq<Json>, done: seq<Json>, depth: nat, fmt: bool)
    requires items != [] && Printable(Array(items)) && Reads(s, i, ItemsText(items, depth, fmt))
    requires At(s, i + |ItemsText(items, depth, fmt)|) == ']'
    ensures At(s, i) as int > 32 && At(s, i) != ']'
    ensures ParseItems(s, i, done) == Ok(Array(done + items), i + |ItemsText(items, depth, fmt)| + 1)
    decreases items, 2
  {
    hide Reads, ParseItems, ParseValue, Text, Skip, Printable;
    PrintableItems(items);
    var first, t := Text(items[0], depth, fmt), items[0];
    var j := i + |first|;
    if |items| == 1 {
      TextHead(s, i, t, depth, fmt);
      SkipStays(s, i);
      SkipStays(s, j);
      ValueReadsBack(s, i, t, depth, fmt);
      ItemsStep(s, i, done, t, j);
      assert items == [t];
    } else {
      var space, rest := When(fmt, " "), ItemsText(items[1..], depth, fmt);
      ReadsSplit(s, i, first, "," + (space + rest));
      ReadsSplit(s, j, ",", space + rest);
      ReadsSplit(s, j + 1, space, rest);
      ReadsAt(s, j, ",", 0);
      TextHead(s, i, t, depth, fmt);
      SkipStays(s, i);
      SkipStays(s, j);
      ValueReadsBack(s, i, t, depth, fmt);
      ItemsStep(s, i, done, t, j);
      SkipOver(s, j + 1, space);
      ItemsStartAnywhere(s, j + 1, j + 1 + |space|, done + [t]);
      ItemsReadBack(s, j + 1 + |space|, items[1..], done + [t], depth, fmt);
      assert done + [t] + items[1..] == done + items;
    }
  }

  lemma ObjectLayout(s: string, i: nat, members: seq<Member>, depth: nat, fmt: bool) returns (b: nat)
    requires Reads(s, i, Text(Object(members), depth, fmt))
    ensures At(s, i) == '{' && Skip(s, i + 1) == Skip(s, b)
    ensures var e := b + |MembersText(members, depth + 1, fmt)|;
      && Reads(s, b, MembersText(members, depth + 1, fmt))
      && At(s, Skip(s, e)) == '}' && Skip(s, e) + 1 == i + |Text(Object(members), depth, fmt)|
  {
    hide Reads, MembersText, Skip, Tabs;
    var nl, body, indent := When(fmt, "\n"), MembersText(members, depth + 1, fmt), Indent(members, depth, fmt);
    ReadsSplit(s, i, "{", nl + (body + (indent + "}")));
    ReadsSplit(s, i + 1, nl, body + (indent + "}"));
    b := i + 1 + |nl|;
    ReadsSplit(s, b, body, indent + "}");
    var e := b + |body|;
    ReadsSplit(s, e, indent, "}");
    ReadsAt(s, i, "{", 0);
    ReadsAt(s, e + |indent|, "}", 0);
    SkipOver(s, e, indent);
    SkipStays(s, e + |indent|);
    SkipOver(s, i + 1, nl);
  }

  /** An opening brace is read as an object. */
  lemma ObjectValue(s: string, i: nat)
    requires At(s, i) == '{'
    ensures ParseValue(s, i) == ParseObject(s, i)
  {
    hide ParseString, ParseNumber, ParseArray, ParseObject;
    NoWord(s, i);
  }

  lemma {:induction false} ObjectReadsBack(s: string, i: nat, members: seq<Member>, depth: nat, fmt: bool)
    requires Printable(Object(members)) && Reads(s, i, Text(Object(members), depth, fmt))
    ensures ParseValue(s, i) == Ok(Object(members), i + |Text(Object(members), depth, fmt)|)
    decreases members, 3
  {
    hide Reads, ParseMembers, Text, Skip, ParseValue, Printable;
    var b := ObjectLayout(s, i, members, depth, fmt);
    ObjectValue(s, i);
    if members != [] {
      MembersReadBack(s, b, members, [], depth + 1, fmt);
      SkipStays(s, Skip(s, b));
      MembersStartAnywhere(s, Skip(s, i + 1), b, []);
      assert [] + members == members;
    }
  }

  /** White space before a member makes no difference. */
  lemma MembersStartAnywhere(s: string, i: nat, j: nat, done: seq<Member>)
    requires Skip(s, i) == Skip(s, j)
    ensures ParseMembers(s, i, done) == ParseMembers(s, j, done)
  {
    hide Skip, ParseString, ParseValue, At;
  }

  /** The text of one member at `i`: `v` is where its value ends, and the parser goes on with
      the next member or with the end of the object. */
  ghost predicate ReadsMember(s: string, i: nat, m: Member, v: nat) {
    var k := ParseString(s, Skip(s, i));
    && k.Ok? && k.value == m.name && At(s, Skip(s, k.end)) == ':'
    && ParseValue(s, Skip(s, Skip(s, k.end) + 1)) == Ok(m.value, v)
  }

  /** One step of the member loop. */
  lemma MembersStep(s: string, i: nat, done: seq<Member>, m: Member, v: nat)
    requires ReadsMember(s, i, m, v)
    ensures At(s, Skip(s, v)) == ',' ==> ParseMembers(s, i, done) == ParseMembers(s, Skip(s, v) + 1, done + [m])
    ensures At(s, Skip(s, v)) == '}' ==> ParseMembers(s, i, done) == Ok(Object(done + [m]), Skip(s, v) + 1)
  {
    hide Skip, ParseString, ParseValue;
  }

  lemma {:induction false} MembersReadBack(s: string, i: nat, members: seq<Member>, done: seq<Member>, depth: nat, fmt: bool)
    requires members != [] && Printable(Object(members)) && Reads(s, i, MembersText(members, depth, fmt))
    requires At(s, Skip(s, i + |MembersText(members, depth, fmt)|)) == '}'
    ensures At(s, Skip(s, i)) == '"'
    ensures ParseMembers(s, i, done)
         == Ok(Object(done + members), Skip(s, i + |MembersText(members, depth, fmt)|) + 1)
    decreases members, 2
  {
    hide Reads, ParseMembers, ReadsMember, MemberText, Skip;
    var m, more := members[0], |members| > 1;
    var head, rest := MemberText(m, depth, fmt, more), MembersText(members[1..], depth, fmt);
    ReadsSplit(s, i, head, rest);
    var e := i + |head|;
    var v := MemberReadsBack(s, i, m, depth, fmt, more);
    var done' := done + [m];
    MembersStep(s, i, done, m, v);
    if more {
      assert Printable(Object(members[1..]));
      MembersReadBack(s, e, members[1..], done', depth, fmt);
      MembersStartAnywhere(s, Skip(s, v) + 1, e, done');
      assert done' + members[1..] == done + members;
    } else {
      assert members == [m] && rest == "";
    }
  }

  /** Where the parts of a member's text stand: its name, its colon, its value and the end of
      its value. */
  lemma MemberLayout(s: string, i: nat, m: Member, depth: nat, fmt: bool, more: bool)
    returns (a: nat, b: nat, c: nat, v: nat)
    requires Reads(s, i, MemberText(m, depth, fmt, more))
    ensures Skip(s, i) == Skip(s, a) && Reads(s, a, StringText(m.name))
    ensures b == a + |StringText(m.name)| && At(s, b) == ':' && Skip(s, b + 1) == Skip(s, c)
    ensures Reads(s, c, Text(m.value, depth, fmt)) && v == c + |Text(m.value, depth, fmt)|
    ensures var e := i + |MemberText(m, depth, fmt, more)|;
      && e == v + |When(more, ",")| + |When(fmt, "\n")|
      && Reads(s, v, When(more, ",")) && Reads(s, v + |When(more, ",")|, When(fmt, "\n"))
  {
    hide Reads, Skip, Text, StringText;
    var tabs, name, tab := When(fmt, Tabs(depth)), StringText(m.name), When(fmt, "\t");
    var value, comma, nl := Text(m.value, depth, fmt), When(more, ","), When(fmt, "\n");
    ReadsSplit(s, i, tabs, name + (":" + (tab + (value + (comma + nl)))));
    a := i + |tabs|;
    ReadsSplit(s, a, name, ":" + (tab + (value + (comma + nl))));
    b := a + |name|;
    ReadsSplit(s, b, ":", tab + (value + (comma + nl)));
    ReadsSplit(s, b + 1, tab, value + (comma + nl));
    c := b + 1 + |tab|;
    ReadsSplit(s, c, value, comma + nl);
    v := c + |value|;
    ReadsSplit(s, v, comma, nl);
    SkipOver(s, i, tabs);
    ReadsAt(s, b, ":", 0);
    SkipOver(s, b + 1, tab);
  }

  lemma {:induction false} MemberReadsBack(s: string, i: nat, m: Member, depth: nat, fmt: bool, more: bool)
    returns (v: nat)
    requires NulFree(m.name) && Printable(m.value) && Reads(s, i, MemberText(m, depth, fmt, more))
    requires !more ==> At(s, Skip(s, i + |MemberText(m, depth, fmt, more)|)) == '}'
    ensures At(s, Skip(s, i)) == '"' && ReadsMember(s, i, m, v)
    ensures var e := i + |MemberText(m, depth, fmt, more)|;
      if more then At(s, Skip(s, v)) == ',' && Skip(s, Skip(s, v) + 1) == Skip(s, e)
      else Skip(s, v) == Skip(s, e)
    decreases m, 1
  {
    hide Reads, ParseString, ParseValue, Skip, Text, StringText, MemberText, Printable, NulFree;
    var a, b, c;
    a, b, c, v := MemberLayout(s, i, m, depth, fmt, more);
    StringReadsBack(s, a, m.name);
    SkipStays(s, a);
    SkipStays(s, b);
    TextHead(s, c, m.value, depth, fmt);
    SkipStays(s, c);
    SkipOver(s, v + |When(more, ",")|, When(fmt, "\n"));
    ValueEnd(s, v, When(more, ","), When(fmt, "\n"));
    ValueReadsBack(s, c, m.value, depth, fmt);
  }

  /** What follows a member's value cannot continue a number. */
  lemma ValueEnd(s: string, v: nat, comma: string, nl: string)
    requires comma in ["", ","] && nl in ["", "\n"] && Reads(s, v, comma) && Reads(s, v + |comma|, nl)
    requires comma == "" ==> At(s, Skip(s, v + |comma| + |nl|)) == '}'
    ensures EndsNumber(At(s, v))
    ensures comma != "" ==> At(s, v) == ',' && Skip(s, v) == v
  {
    if comma != "" {
      ReadsAt(s, v, comma, 0);
    } else if nl != "" {
      ReadsAt(s, v, nl, 0);
    }
  }

  /** The parser inverts both printers: the text of every printable tree parses back to the
      tree, consuming the whole text, whether or not trailing text would be an error. */
  lemma RoundTrip(t: Json, fmt: bool, all: bool)
    requires Printable(t)
    ensures Parse(Text(t, 0, fmt), all) == Ok(t, |Text(t, 0, fmt)|)
  {
    hide Text, ParseValue, Reads;
    var s := Text(t, 0, fmt);
    ReadsWhole(s);
    TextHead(s, 0, t, 0, fmt);
    SkipStays(s, 0);
    ValueReadsBack(s, 0, t, 0, fmt);
  }

  // ---- the parser as the code runs it

  method SkipSpace(s: string, i: nat) returns (j: nat)
    ensures j == Skip(s, i)
  {
    j := i;
    while At(s, j) != NUL && At(s, j) as int <= 32
      invariant Skip(s, i) == Skip(s, j)
      decreases |s| - j
    {
      j := j + 1;
    }
  }

  method ReadDigits(s: string, i: nat, start: nat) returns (n: nat, j: nat)
    ensures (n, j) == Digits(s, i, start)
  {
    n, j := start, i;
    while IsDigit(At(s, j))
      invariant Digits(s, i, start) == Digits(s, j, n)
      decreases |s| - j
    {
      n, j := n * 10 + DigitValue(At(s, j)), j + 1;
    }
  }

  method ReadExponent(s: string, i: nat) returns (e: int, j: nat)
    ensures (e, j) == Exponent(s, i)
  {
    e, j := 0, i;
    if At(s, i) == 'e' || At(s, i) == 'E' {
      var c := At(s, i + 1);
      var n, k := ReadDigits(s, if c == '+' || c == '-' then i + 2 else i + 1, 0);
      e, j := if c == '-' then 0 - n as int else n, k;
    }
  }

  method ReadNumber(s: string, i: nat) returns (r: Parsed<Json>)
    requires At(s, i) == '-' || IsDigit(At(s, i))
    ensures r == ParseNumber(s, i)
  {
    hide Digits, Exponent;
    var n: nat, scale: nat, num: nat := 0, 0, i;
    if At(s, num) == '-' { num := num + 1; }
    if At(s, num) == '0' { num := num + 1; }
    if '1' <= At(s, num) <= '9' { n, num := ReadDigits(s, num, 0); }
    if At(s, num) == '.' && IsDigit(At(s, num + 1)) {
      var from := num + 1;
      n, num := ReadDigits(s, from, n);
      scale := num - from;
    }
    var subscale, end := ReadExponent(s, num);
    var mantissa: int := if At(s, i) == '-' then 0 - n as int else n;
    r := Ok(if subscale - scale == 0 then Number(mantissa) else Decimal(mantissa, subscale - scale), end);
  }

  method ReadString(s: string, i: nat) returns (r: Parsed<string>)
    ensures r == ParseString(s, i)
  {
    if At(s, i) != '"' { return Fail; }
    var out, j := "", i + 1;
    while At(s, j) != '"' && At(s, j) != NUL
      invariant j >= i + 1 && Chars(s, i + 1, "") == Chars(s, j, out)
      decreases |s| - j
    {
      if At(s, j) != '\\' {
        out, j := out + [At(s, j)], j + 1;
      } else {
        var (e, next) := Escape(s, j);
        out, j := out + e, next;
      }
    }
    r := Ok(out, if At(s, j) == '"' then j + 1 else j);
  }

  // ---- the block a string is copied into

  predicate IsHex(c: char) { HexValue(c).Some? }

  /** The characters from `i` up to a closing quote follow the grammar (section 7 of RFC 8259). */
  predicate Literal(s: string, i: nat)
    decreases |s| - i
  {
    var c, d := At(s, i), At(s, i + 1);
    if c == '"' then true
    else if c == NUL then false
    else if c != '\\' then Literal(s, i + 1)
    else if d == 'u' then
      IsHex(At(s, i + 2)) && IsHex(At(s, i + 3)) && IsHex(At(s, i + 4)) && IsHex(At(s, i + 5)) && Literal(s, i + 6)
    else d in "\"\\/bfnrt" && Literal(s, i + 2)
  }

  lemma EscapedIsLiteral(s: string, i: nat, c: char)
    requires c != NUL && Reads(s, i, Escaped(c)) && Literal(s, i + |Escaped(c)|)
    ensures Literal(s, i)
  {
    var e := Escaped(c);
    ReadsAt(s, i, e, 0);
    if NeedsEscape(c) {
      ReadsAt(s, i, e, 1);
      if !HasShortEscape(c) {
        ReadsAt(s, i, e, 2);
        ReadsAt(s, i, e, 3);
        ReadsAt(s, i, e, 4);
        ReadsAt(s, i, e, 5);
      }
    }
  }

  /** What the printer writes between quotes follows the grammar. */
  lemma {:induction false} PrintedIsLiteral(s: string, i: nat, text: string)
    requires NulFree(text) && Reads(s, i, EscapedAll(text)) && At(s, i + |EscapedAll(text)|) == '"'
    ensures Literal(s, i)
    decreases |text|
  {
    hide Reads, Escaped;
    if text != "" {
      ReadsSplit(s, i, Escaped(text[0]), EscapedAll(text[1..]));
      PrintedIsLiteral(s, i + |Escaped(text[0])|, text[1..]);
      EscapedIsLiteral(s, i, text[0]);
    }
  }

  /** The first pass: how much it counts, taking a backslash and what follows it for one
      character, and where it stops. */
  function Counted(s: string, i: nat): (r: (nat, nat))
    ensures r.1 >= i
    decreases |s| - i
  {
    var c := At(s, i);
    if c == '"' || c == NUL then (0, i)
    else
      var (n, end) := Counted(s, if c == '\\' then i + 2 else i + 1);
      (n + 1, end)
  }

  lemma CountedHex(s: string, i: nat)
    requires IsHex(At(s, i)) && IsHex(At(s, i + 1)) && IsHex(At(s, i + 2)) && IsHex(At(s, i + 3))
    ensures Counted(s, i) == (Counted(s, i + 4).0 + 4, Counted(s, i + 4).1)
  {
    assert Counted(s, i).0 == Counted(s, i + 1).0 + 1 && Counted(s, i + 1).0 == Counted(s, i + 2).0 + 1;
    assert Counted(s, i + 2).0 == Counted(s, i + 3).0 + 1 && Counted(s, i + 3).0 == Counted(s, i + 4).0 + 1;
  }

  /** What one escape stores is no more than what the first pass counts for it. */
  lemma EscapeCounted(s: string, i: nat)
    requires At(s, i) == '\\' && Literal(s, i)
    ensures var (e, j) := Escape(s, i);
      Literal(s, j) && Counted(s, i).0 >= |e| + Counted(s, j).0 && Counted(s, i).1 == Counted(s, j).1
  {
    if At(s, i + 1) == 'u' {
      CountedHex(s, i + 2);
      var (e, j) := UnicodeEscape(s, i);
      if j == i + 12 {
        assert Literal(s, i + 6);
        CountedHex(s, i + 8);
      }
    }
  }

  /** For a grammatical literal both passes stop at the same quote, and the second stores at most
      what the first counted. */
  lemma {:induction false} StoresCounted(s: string, i: nat, out: string)
    requires Literal(s, i)
    ensures var (text, j) := Chars(s, i, out);
      |text| <= |out| + Counted(s, i).0 && j == Counted(s, i).1 && At(s, j) == '"'
    decreases |s| - i
  {
    hide Escape;
    var c := At(s, i);
    if c == '\\' {
      EscapeCounted(s, i);
      var (e, j) := Escape(s, i);
      StoresCounted(s, j, out + e);
    } else if c != '"' {
      StoresCounted(s, i + 1, out + [c]);
    }
  }

  method CountChars(s: string, i: nat) returns (len: nat)
    ensures len == Counted(s, i).0
  {
    var ptr := i;
    len := 0;
    while At(s, ptr) != '"' && At(s, ptr) != NUL
      invariant Counted(s, i).0 == len + Counted(s, ptr).0
      decreases |s| - ptr
    {
      len := len + 1;
      ptr := if At(s, ptr) == '\\' then ptr + 2 else ptr + 1;
    }
  }

  method Store(out: array<char>, n: nat, e: string)
    requires n + |e| <= out.Length
    modifies out
    ensures out[..n + |e|] == old(out[..n]) + e
  {
    for k := 0 to |e|
      invariant out[..n + k] == old(out[..n]) + e[..k]
    {
      out[n + k] := e[k];
    }
  }

  /** The two passes over a literal: the block sized by the first holds the whole string and its
      terminator, and every byte of the second is stored inside it. */
  method CopyLiteral(s: string, i: nat) returns (out: array<char>, ghost text: string, end: nat)
    requires At(s, i) == '"' && Literal(s, i + 1)
    ensures ParseString(s, i) == Ok(text, end)
    ensures fresh(out) && out.Length == Counted(s, i + 1).0 + 1
    ensures |text| < out.Length && out[..|text|] == text && out[|text|] == NUL
  {
    var len := CountChars(s, i + 1);
    out := new char[len + 1];
    var j, n := i + 1, 0;
    text := "";
    StoresCounted(s, j, text);
    while At(s, j) != '"' && At(s, j) != NUL
      invariant j >= i + 1 && Literal(s, j) && Chars(s, i + 1, "") == Chars(s, j, text)
      invariant n == |text| && n + Counted(s, j).0 <= len && out[..n] == text
      decreases |s| - j
    {
      hide Escape, Chars, Counted, Literal;
      var more, next := [At(s, j)], j + 1;
      if At(s, j) == '\\' {
        EscapeCounted(s, j);
        var (e, k) := Escape(s, j);
        more, next := e, k;
      }
      CharsStep(s, j, text);
      Store(out, n, more);
      text := text + more;
      j, n := next, n + |more|;
    }
    out[n] := NUL;
    end := j;
    if At(s, j) == '"' { end := end + 1; }
  }

  /** One turn of either pass. */
  lemma CharsStep(s: string, j: nat, text: string)
    requires At(s, j) != '"' && At(s, j) != NUL && Literal(s, j)
    ensures At(s, j) == '\\' ==> var (e, k) := Escape(s, j); Chars(s, j, text) == Chars(s, k, text + e)
    ensures At(s, j) != '\\' ==> Chars(s, j, text) == Chars(s, j + 1, text + [At(s, j)])
    ensures At(s, j) != '\\' ==> Literal(s, j + 1) && Counted(s, j).0 == Counted(s, j + 1).0 + 1
  {
    hide Escape;
  }

  method ReadValue(s: string, i: nat) returns (r: Parsed<Json>)
    ensures r == ParseValue(s, i)
    decreases Rest(s, i), 1
  {
    if StartsWith(s, i, "null") { return Ok(Null, i + 4); }
    if StartsWith(s, i, "false") { return Ok(False, i + 5); }
    if StartsWith(s, i, "true") { return Ok(True, i + 4); }
    if At(s, i) == '"' {
      var t := ReadString(s, i);
      return if t.Ok? then Ok(String(t.value), t.end) else Fail;
    }
    if At(s, i) == '-' || IsDigit(At(s, i)) { r := ReadNumber(s, i); return; }
    if At(s, i) == '[' { r := ReadArray(s, i); return; }
    if At(s, i) == '{' { r := ReadObject(s, i); return; }
    return Fail;
  }

  /** What the item loop has still to do when `done` is read and the text goes on at `i`. */
  function ItemsLeft(s: string, i: nat, done: seq<Json>): Parsed<Json> {
    if At(s, i) == ',' then ParseItems(s, i + 1, done)
    else if At(s, i) == ']' then Ok(Array(done), i + 1)
    else Fail
  }

  /** One item of an array. */
  method ReadItem(s: string, i: nat, ghost done: seq<Json>) returns (r: Parsed<Json>)
    ensures r.Fail? ==> ParseItems(s, i, done).Fail?
    ensures r.Ok? ==> r.end > i && ParseItems(s, i, done) == ItemsLeft(s, Skip(s, r.end), done + [r.value])
    decreases Rest(s, i), 2
  {
    hide ParseValue;
    var from := SkipSpace(s, i);
    r := ReadValue(s, from);
  }

  method ReadArray(s: string, i: nat) returns (r: Parsed<Json>)
    requires At(s, i) == '['
    ensures r == ParseArray(s, i)
    decreases Rest(s, i), 0
  {
    hide ParseItems, Skip;
    var value := SkipSpace(s, i + 1);
    if At(s, value) == ']' { return Ok(Array([]), value + 1); }
    var v := ReadItem(s, value, []);
    if v.Fail? { return Fail; }
    var items := [v.value];
    assert [] + items == items;
    value := SkipSpace(s, v.end);
    while At(s, value) == ','
      invariant value > i && ParseArray(s, i) == ItemsLeft(s, value, items)
      decreases |s| - value
    {
      v := ReadItem(s, value + 1, items);
      if v.Fail? { return Fail; }
      items := items + [v.value];
      value := SkipSpace(s, v.end);
    }
    r := if At(s, value) == ']' then Ok(Array(items), value + 1) else Fail;
  }

  function MembersLeft(s: string, i: nat, done: seq<Member>): Parsed<Json> {
    if At(s, i) == ',' then ParseMembers(s, i + 1, done)
    else if At(s, i) == '}' then Ok(Object(done), i + 1)
    else Fail
  }

  /** One member: its name, a colon and its value. */
  method ReadMember(s: string, i: nat, ghost done: seq<Member>) returns (r: Parsed<Member>)
    ensures r.Fail? ==> ParseMembers(s, i, done).Fail?
    ensures r.Ok? ==> r.end > i && ParseMembers(s, i, done) == MembersLeft(s, Skip(s, r.end), done + [r.value])
    decreases Rest(s, i), 2
  {
    hide ParseValue, ParseString;
    var from := SkipSpace(s, i);
    var name := ReadString(s, from);
    if name.Fail? { return Fail; }
    var colon := SkipSpace(s, name.end);
    if At(s, colon) != ':' { return Fail; }
    from := SkipSpace(s, colon + 1);
    var v := ReadValue(s, from);
    if v.Fail? { return Fail; }
    r := Ok(Member(name.value, v.value), v.end);
  }

  method ReadObject(s: string, i: nat) returns (r: Parsed<Json>)
    requires At(s, i) == '{'
    ensures r == ParseObject(s, i)
    decreases Rest(s, i), 0
  {
    hide ParseMembers, Skip;
    var value := SkipSpace(s, i + 1);
    if At(s, value) == '}' { return Ok(Object([]), value + 1); }
    var m := ReadMember(s, value, []);
    if m.Fail? { return Fail; }
    var members := [m.value];
    assert [] + members == members;
    value := SkipSpace(s, m.end);
    while At(s, value) == ','
      invariant value > i && ParseObject(s, i) == MembersLeft(s, value, members)
      decreases |s| - value
    {
      m := ReadMember(s, value + 1, members);
      if m.Fail? { return Fail; }
      members := members + [m.value];
      value := SkipSpace(s, m.end);
    }
    r := if At(s, value) == '}' then Ok(Object(members), value + 1) else Fail;
  }

  method ParseText(s: string, all: bool) returns (r: Parsed<Json>)
    ensures r == Parse(s, all)
    ensures forall t, fmt :: Printable(t) && s == Text(t, 0, fmt) ==> r == Ok(t, |s|)
  {
    var from := SkipSpace(s, 0);
    r := ReadValue(s, from);
    if r.Ok? && all {
      var j := SkipSpace(s, r.end);
      r := if At(s, j) != NUL then Fail else Ok(r.value, j);
    }
    forall t, fmt | Printable(t) && s == Text(t, 0, fmt) ensures r == Ok(t, |s|) {
      RoundTrip(t, fmt, all);
    }
  }
}
