/** JSON trees and the text the printer gives for them.

    A C string is a sequence of characters; reading at or past its end gives the terminating
    NUL.  Numbers are the integers that fit a C `int`; `Decimal` stands for the numbers with a
    fraction or an exponent, which the parser accepts and this model does not print. */
module Json {

  datatype Option<+T> = None | Some(value: T)

  datatype Json =
    | Null | False | True
    | Number(n: int)
    | Decimal(mantissa: int, exponent: int)
    | String(text: string)
    | Array(items: seq<Json>)
    | Object(members: seq<Member>)

  datatype Member = Member(name: string, value: Json)

  const NUL: char := '\0'
  const BACKSPACE: char := '\U{08}'
  const FORM_FEED: char := '\U{0c}'

  ghost predicate NulFree(s: string) {
    forall i :: 0 <= i < |s| ==> s[i] != NUL
  }

  /** The trees the printer is defined for. */
  ghost predicate Printable(t: Json) {
    match t
    case Number(n) => -0x8000_0000 <= n < 0x8000_0000
    case Decimal(_, _) => false
    case String(s) => NulFree(s)
    case Array(items) => forall i :: 0 <= i < |items| ==> Printable(items[i])
    case Object(members) => forall i :: 0 <= i < |members| ==> NulFree(members[i].name) && Printable(members[i].value)
    case _ => true
  }

  // ---- characters

  function DigitChar(d: nat): char
    requires d < 10
  {
    ('0' as int + d) as char
  }

  /** A lower-case hexadecimal digit, as `%x` prints it. */
  function HexChar(d: nat): char
    requires d < 16
  {
    if d < 10 then DigitChar(d) else ('a' as int + d - 10) as char
  }

  predicate NeedsEscape(c: char) {
    c as int < 32 || c == '"' || c == '\\'
  }

  /** The characters with an escape of their own. */
  predicate HasShortEscape(c: char) {
    c in ['"', '\\', BACKSPACE, FORM_FEED, '\n', '\r', '\t']
  }

  /** How one character of a string is printed. */
  function Escaped(c: char): (e: string)
    ensures |e| == if !NeedsEscape(c) then 1 else if HasShortEscape(c) then 2 else 6
  {
    if !NeedsEscape(c) then [c]
    else if c == '\\' then "\\\\"
    else if c == '"' then "\\\""
    else if c == BACKSPACE then "\\b"
    else if c == FORM_FEED then "\\f"
    else if c == '\n' then "\\n"
    else if c == '\r' then "\\r"
    else if c == '\t' then "\\t"
    else "\\u00" + [HexChar(c as int / 16), HexChar(c as int % 16)]
  }

  function EscapedAll(s: string): string {
    if s == "" then "" else Escaped(s[0]) + EscapedAll(s[1..])
  }

  function StringText(s: string): string {
    "\"" + (EscapedAll(s) + "\"")
  }

  function NatText(n: nat): (t: string)
    ensures |t| >= 1
    ensures n > 0 ==> '1' <= t[0] <= '9'
    ensures forall i :: 0 <= i < |t| ==> '0' <= t[i] <= '9'
  {
    if n < 10 then [DigitChar(n)] else NatText(n / 10) + [DigitChar(n % 10)]
  }

  function Pow10(k: nat): nat {
    if k == 0 then 1 else 10 * Pow10(k - 1)
  }

  /** The number that decimal digits stand for. */
  function DecimalValue(t: string): nat
    requires forall i :: 0 <= i < |t| ==> '0' <= t[i] <= '9'
  {
    if t == "" then 0 else 10 * DecimalValue(t[..|t| - 1]) + (t[|t| - 1] as nat - '0' as nat)
  }

  /** The digits printed for a number stand for it. */
  lemma {:induction false} NatTextValue(n: nat)
    ensures DecimalValue(NatText(n)) == n
  {
    if n >= 10 {
      NatTextValue(n / 10);
      assert NatText(n)[..|NatText(n)| - 1] == NatText(n / 10);
    } else {
      assert NatText(n)[..0] == "";
    }
  }

  /** What `%d` prints. */
  function IntText(n: int): string {
    if n < 0 then "-" + NatText(-n) else NatText(n)
  }

  function Tabs(k: int): (t: string)
    ensures |t| == if k < 0 then 0 else k
    ensures forall i :: 0 <= i < |t| ==> t[i] == '\t'
  {
    if k <= 0 then "" else seq(k, _ => '\t')
  }

  // ---- the text of a tree

  function When(b: bool, text: string): string {
    if b then text else ""
  }

  /** The text printed for a tree that sits `depth` levels below the root. */
  function Text(t: Json, depth: nat, fmt: bool): string
    decreases t, 1
  {
    match t
    case Null => "null"
    case False => "false"
    case True => "true"
    case Number(n) => IntText(n)
    case Decimal(_, _) => ""
    case String(s) => StringText(s)
    case Array(items) => "[" + (ItemsText(items, depth + 1, fmt) + "]")
    case Object(members) =>
      "{" + (When(fmt, "\n") + (MembersText(members, depth + 1, fmt) + (Indent(members, depth, fmt) + "}")))
  }

  /** The indentation of a closing brace; an empty object's is one less. */
  function Indent(members: seq<Member>, depth: nat, fmt: bool): string {
    When(fmt, Tabs(if members == [] then depth - 1 else depth))
  }

  function ItemsText(items: seq<Json>, depth: nat, fmt: bool): string
    decreases items, 0
  {
    if items == [] then ""
    else if |items| == 1 then Text(items[0], depth, fmt)
    else Text(items[0], depth, fmt) + ("," + (When(fmt, " ") + ItemsText(items[1..], depth, fmt)))
  }

  function MembersText(members: seq<Member>, depth: nat, fmt: bool): string
    decreases members, 0
  {
    if members == [] then ""
    else MemberText(members[0], depth, fmt, |members| > 1) + MembersText(members[1..], depth, fmt)
  }

  function MemberText(m: Member, depth: nat, fmt: bool, more: bool): string
    decreases m, 2
  {
    When(fmt, Tabs(depth)) + (StringText(m.name) + (":" + (When(fmt, "\t") + (Text(m.value, depth, fmt)
    + (When(more, ",") + When(fmt, "\n"))))))
  }

  // ---- reading a C string

  function At(s: string, i: nat): char {
    if i < |s| then s[i] else NUL
  }

  /** `text` is what stands in `s` from position `i` on. */
  ghost predicate Reads(s: string, i: nat, text: string) {
    i + |text| <= |s| && s[i..i + |text|] == text
  }

  lemma ReadsSplit(s: string, i: nat, a: string, b: string)
    ensures Reads(s, i, a + b) <==> Reads(s, i, a) && Reads(s, i + |a|, b)
  {
    if i + |a| + |b| <= |s| {
      var w := s[i..i + |a| + |b|];
      assert w[..|a|] == s[i..i + |a|] && w[|a|..] == s[i + |a|..i + |a| + |b|];
      assert (a + b)[..|a|] == a && (a + b)[|a|..] == b;
      assert w == w[..|a|] + w[|a|..];
    }
  }

  lemma ReadsAt(s: string, i: nat, text: string, k: nat)
    requires Reads(s, i, text) && k < |text|
    ensures At(s, i + k) == text[k]
  {
    assert s[i..i + |text|][k] == s[i + k];
  }

  lemma ReadsWhole(text: string)
    ensures Reads(text, 0, text)
  {
    assert text[0..|text|] == text;
  }
}
