/** What string literals mean: every way to write a text between quotes that section 7 of RFC 8259
    allows, and what the parser makes of it. */
module JsonLiterals {
  import opened Json
  import opened JsonParser

  predicate ScalarValue(uc: nat) {
    uc < 0x11_0000 && !(0xD800 <= uc <= 0xDFFF)
  }

  // ---- the bytes of a scalar value

  predicate Continuation(c: char) {
    0x80 <= c as int < 0xC0
  }

  /** The UTF-8 decoder of section 3 of RFC 3629: shortest forms only, and no surrogates. */
  function DecodeUtf8(b: string): Option<nat> {
    if |b| == 1 && b[0] as int < 0x80 then Some(b[0] as int)
    else if |b| == 2 && 0xC0 <= b[0] as int < 0xE0 && Continuation(b[1]) then
      var uc := (b[0] as int - 0xC0) * 64 + (b[1] as int - 0x80);
      if uc >= 0x80 then Some(uc) else None
    else if |b| == 3 && 0xE0 <= b[0] as int < 0xF0 && Continuation(b[1]) && Continuation(b[2]) then
      var uc := ((b[0] as int - 0xE0) * 64 + (b[1] as int - 0x80)) * 64 + (b[2] as int - 0x80);
      if uc >= 0x800 && ScalarValue(uc) then Some(uc) else None
    else if |b| == 4 && 0xF0 <= b[0] as int < 0xF8 && Continuation(b[1]) && Continuation(b[2]) && Continuation(b[3]) then
      var uc := (((b[0] as int - 0xF0) * 64 + (b[1] as int - 0x80)) * 64 + (b[2] as int - 0x80)) * 64 + (b[3] as int - 0x80);
      if uc >= 0x1_0000 && ScalarValue(uc) then Some(uc) else None
    else None
  }

  lemma Utf8Decodes(uc: nat)
    requires ScalarValue(uc)
    ensures DecodeUtf8(Utf8(uc)) == Some(uc)
  {
    assert uc == uc / 64 * 64 + uc % 64;
    assert uc / 64 == uc / 4096 * 64 + uc / 64 % 64;
    assert uc / 4096 == uc / 262144 * 64 + uc / 4096 % 64;
  }

  // ---- escapes

  /** Four hexadecimal digits, in either case, for `n`. */
  predicate Hex4(t: string, n: nat) {
    && |t| == 4 && n < 0x1_0000
    && HexValue(t[0]) == Some(n / 4096) && HexValue(t[1]) == Some(n / 256 % 16)
    && HexValue(t[2]) == Some(n / 16 % 16) && HexValue(t[3]) == Some(n % 16)
  }

  /** A 16-bit unit written as an escape. */
  predicate Unit(t: string, n: nat) {
    |t| == 6 && t[..2] == "\\u" && Hex4(t[2..], n)
  }

  /** A scalar value as section 7 of RFC 8259 escapes it: one unit, or a surrogate pair. */
  predicate Utf16Escape(t: string, uc: nat)
    requires ScalarValue(uc)
  {
    if uc < 0x1_0000 then Unit(t, uc)
    else
      var v := uc - 0x1_0000;
      |t| == 12 && Unit(t[..6], 0xD800 + v / 1024) && Unit(t[6..], 0xDC00 + v % 1024)
  }

  lemma Hex4Digits(n: nat)
    requires n < 0x1_0000
    ensures n / 4096 < 16 && ((n / 4096 * 16 + n / 256 % 16) * 16 + n / 16 % 16) * 16 + n % 16 == n
  {
    assert n / 16 * 16 + n % 16 == n;
    assert n / 256 * 16 + n / 16 % 16 == n / 16;
    assert n / 4096 * 16 + n / 256 % 16 == n / 256;
  }

  lemma UnitReadsBack(s: string, i: nat, t: string, n: nat)
    requires Unit(t, n) && Reads(s, i, t)
    ensures At(s, i) == '\\' && At(s, i + 1) == 'u' && ParseHex4(s, i + 2) == n
    ensures IsHex(At(s, i + 2)) && IsHex(At(s, i + 3)) && IsHex(At(s, i + 4)) && IsHex(At(s, i + 5))
  {
    hide HexValue, Reads;
    Hex4Digits(n);
    ReadsAt(s, i, t, 0);
    ReadsAt(s, i, t, 1);
    ReadsAt(s, i, t, 2);
    ReadsAt(s, i, t, 3);
    ReadsAt(s, i, t, 4);
    ReadsAt(s, i, t, 5);
    assert t[..2][0] == t[0] && t[..2][1] == t[1];
  }

  /** What an escaped scalar value is stored as: its UTF-8 bytes, and nothing for the one that
      would end the string. */
  function Stored(uc: nat): string
    requires ScalarValue(uc)
  {
    if uc == 0 then "" else Utf8(uc)
  }

  lemma EscapedCodePoint(s: string, i: nat, t: string, uc: nat)
    requires ScalarValue(uc) && Utf16Escape(t, uc) && Reads(s, i, t)
    ensures At(s, i) == '\\' && Escape(s, i) == (Stored(uc), i + |t|)
    ensures Literal(s, i + |t|) ==> Literal(s, i)
  {
    hide Reads, Unit, ParseHex4, Utf8, IsHex;
    if uc < 0x1_0000 {
      UnitReadsBack(s, i, t, uc);
      assert |t| == 6 by { UnitLength(t, uc); }
    } else {
      var v := uc - 0x1_0000;
      var hi, lo := 0xD800 + v / 1024, 0xDC00 + v % 1024;
      assert t == t[..6] + t[6..];
      ReadsSplit(s, i, t[..6], t[6..]);
      UnitReadsBack(s, i, t[..6], hi);
      UnitReadsBack(s, i + 6, t[6..], lo);
      assert hi % 1024 == v / 1024 && lo % 1024 == v % 1024;
    }
  }

  lemma UnitLength(t: string, n: nat)
    requires Unit(t, n)
    ensures |t| == 6
  {
  }

  /** What the letter after a backslash stands for. */
  function ShortMeaning(c: char): Option<nat> {
    match c
    case '"' => Some(0x22)
    case '\\' => Some(0x5C)
    case '/' => Some(0x2F)
    case 'b' => Some(0x08)
    case 'f' => Some(0x0C)
    case 'n' => Some(0x0A)
    case 'r' => Some(0x0D)
    case 't' => Some(0x09)
    case _ => None
  }

  // ---- whole literals

  /** One character of a literal: the scalar value meant, and how it is written. */
  datatype Spelling = Spelling(uc: nat, text: string)

  /** A scalar value may stand for itself in UTF-8, control characters included, if it neither
      ends the literal nor starts an escape; or it may be escaped, by a letter of its own or by
      its 16-bit units. */
  predicate Spells(p: Spelling) {
    && ScalarValue(p.uc)
    && (|| (p.text == Utf8(p.uc) && p.uc != 0 && p.uc != 0x22 && p.uc != 0x5C)
        || (|p.text| == 2 && p.text[0] == '\\' && ShortMeaning(p.text[1]) == Some(p.uc))
        || Utf16Escape(p.text, p.uc))
  }

  ghost predicate AllSpell(ps: seq<Spelling>) {
    forall k :: 0 <= k < |ps| ==> Spells(ps[k])
  }

  function Written(ps: seq<Spelling>): string {
    if ps == [] then "" else ps[0].text + Written(ps[1..])
  }

  /** The text meant, in UTF-8. */
  function Meant(ps: seq<Spelling>): string
    requires AllSpell(ps)
  {
    if ps == [] then "" else Utf8(ps[0].uc) + Meant(ps[1..])
  }

  function StoredAll(ps: seq<Spelling>): string
    requires AllSpell(ps)
  {
    if ps == [] then "" else Stored(ps[0].uc) + StoredAll(ps[1..])
  }

  /** Characters that stand for themselves. */
  predicate Plain(t: string) {
    forall k :: 0 <= k < |t| ==> t[k] != '"' && t[k] != '\\' && t[k] != NUL
  }

  lemma {:induction false} PlainRead(s: string, i: nat, t: string, out: string)
    requires Plain(t) && Reads(s, i, t)
    ensures Chars(s, i, out) == Chars(s, i + |t|, out + t)
    ensures Literal(s, i + |t|) ==> Literal(s, i)
    decreases |t|
  {
    hide Reads, Escape;
    if t == "" {
      assert out + t == out;
    } else {
      assert t == t[..1] + t[1..];
      ReadsSplit(s, i, t[..1], t[1..]);
      ReadsAt(s, i, t, 0);
      PlainRead(s, i + 1, t[1..], out + [t[0]]);
      assert out + [t[0]] + t[1..] == out + t;
    }
  }

  lemma Utf8Plain(uc: nat)
    requires ScalarValue(uc) && uc != 0 && uc != 0x22 && uc != 0x5C
    ensures Plain(Utf8(uc))
  {
  }

  lemma SpellingRead(s: string, i: nat, p: Spelling, out: string)
    requires Spells(p) && Reads(s, i, p.text)
    ensures Chars(s, i, out) == Chars(s, i + |p.text|, out + Stored(p.uc))
    ensures Literal(s, i + |p.text|) ==> Literal(s, i)
  {
    hide Reads, Plain, Utf16Escape, Utf8;
    if p.text == Utf8(p.uc) && p.uc != 0 && p.uc != 0x22 && p.uc != 0x5C {
      Utf8Plain(p.uc);
      PlainRead(s, i, p.text, out);
    } else if Utf16Escape(p.text, p.uc) {
      EscapedCodePoint(s, i, p.text, p.uc);
    } else {
      ReadsAt(s, i, p.text, 0);
      ReadsAt(s, i, p.text, 1);
      ShortStored(s, i, p);
    }
  }

  lemma ShortStored(s: string, i: nat, p: Spelling)
    requires At(s, i) == '\\' && ShortMeaning(At(s, i + 1)) == Some(p.uc)
    ensures ScalarValue(p.uc) && Escape(s, i) == (Stored(p.uc), i + 2)
    ensures Literal(s, i + 2) ==> Literal(s, i)
  {
  }

  lemma {:induction false} SpellingsRead(s: string, i: nat, ps: seq<Spelling>, out: string)
    requires AllSpell(ps) && Reads(s, i, Written(ps)) && At(s, i + |Written(ps)|) == '"'
    ensures Chars(s, i, out) == (out + StoredAll(ps), i + |Written(ps)|)
    ensures Literal(s, i)
    decreases |ps|
  {
    hide Reads, Chars, Spells, Stored, Literal;
    if ps == [] {
      CharsStop(s, i, out);
      LiteralStop(s, i);
      assert out + "" == out;
    } else {
      var p, rest := ps[0], ps[1..];
      ReadsSplit(s, i, p.text, Written(rest));
      SpellsScalar(p);
      SpellingRead(s, i, p, out);
      SpellingsRead(s, i + |p.text|, rest, out + Stored(p.uc));
      assert out + Stored(p.uc) + StoredAll(rest) == out + StoredAll(ps);
    }
  }

  lemma SpellsScalar(p: Spelling)
    requires Spells(p)
    ensures ScalarValue(p.uc)
  {
  }

  lemma LiteralStop(s: string, i: nat)
    requires At(s, i) == '"'
    ensures Literal(s, i)
  {
  }

  predicate AnyZero(ps: seq<Spelling>) {
    exists k :: 0 <= k < |ps| && ps[k].uc == 0
  }

  /** Only a zero is lost. */
  lemma {:induction false} StoredMeant(ps: seq<Spelling>)
    requires AllSpell(ps)
    ensures |StoredAll(ps)| <= |Meant(ps)|
    ensures |StoredAll(ps)| == |Meant(ps)| <==> !AnyZero(ps)
    ensures StoredAll(ps) == Meant(ps) <==> !AnyZero(ps)
  {
    if ps != [] {
      StoredMeant(ps[1..]);
      hide Spells, Utf8;
      assert AnyZero(ps) <==> ps[0].uc == 0 || AnyZero(ps[1..]);
      assert |Utf8(0)| == 1 by { ZeroLength(); }
    }
  }

  lemma ZeroLength()
    ensures |Utf8(0)| == 1
  {
  }

  /** A literal of any characters, each written in any way the grammar knows, is parsed up to
      exactly its closing quote, into the UTF-8 bytes of all its characters but the zeros: it is
      parsed into its meaning exactly when it has no zero. */
  lemma LiteralMeans(s: string, i: nat, ps: seq<Spelling>)
    requires AllSpell(ps) && Reads(s, i, "\"" + (Written(ps) + "\""))
    ensures Literal(s, i + 1)
    ensures ParseString(s, i) == Ok(StoredAll(ps), i + |Written(ps)| + 2)
    ensures ParseString(s, i) == Ok(Meant(ps), i + |Written(ps)| + 2) <==> !AnyZero(ps)
  {
    hide Reads, Chars, Literal, Spells;
    var body := Written(ps);
    ReadsSplit(s, i, "\"", body + "\"");
    ReadsSplit(s, i + 1, body, "\"");
    ReadsAt(s, i, "\"", 0);
    ReadsAt(s, i + 1 + |body|, "\"", 0);
    SpellingsRead(s, i + 1, ps, "");
    assert "" + StoredAll(ps) == StoredAll(ps);
    StoredMeant(ps);
  }
}
