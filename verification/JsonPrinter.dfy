/** The two-pass printer, which measures before it allocates.  The blocks are arrays, so every
    write is proved to be in bounds. */
module JsonPrinter {
  import opened Json

  // ---- facts about the printed text

  lemma {:induction false} PlainString(s: string)
    requires forall i :: 0 <= i < |s| ==> !NeedsEscape(s[i])
    ensures EscapedAll(s) == s
  {
    if s != "" {
      PlainString(s[1..]);
      assert s == [s[0]] + s[1..];
    }
  }

  lemma {:induction false} EscapedAllAppend(a: string, b: string)
    ensures EscapedAll(a + b) == EscapedAll(a) + EscapedAll(b)
  {
    hide Escaped;
    if a == "" {
      assert a + b == b && "" + EscapedAll(b) == EscapedAll(b);
    } else {
      EscapedAllAppend(a[1..], b);
      assert (a + b)[0] == a[0] && (a + b)[1..] == a[1..] + b;
      assert Escaped(a[0]) + (EscapedAll(a[1..]) + EscapedAll(b)) == (Escaped(a[0]) + EscapedAll(a[1..])) + EscapedAll(b);
    }
  }

  lemma EscapedNothing()
    ensures EscapedAll("") == ""
  {
  }

  lemma EscapedPrefix(s: string, i: nat)
    requires i < |s|
    ensures EscapedAll(s[..i + 1]) == EscapedAll(s[..i]) + Escaped(s[i])
    ensures |EscapedAll(s[..i + 1])| <= |EscapedAll(s)|
  {
    hide Escaped;
    assert s[..i + 1] == s[..i] + [s[i]];
    EscapedAllAppend(s[..i], [s[i]]);
    assert EscapedAll([s[i]]) == Escaped(s[i]) + EscapedAll("") == Escaped(s[i]);
    assert s == s[..i + 1] + s[i + 1..];
    EscapedAllAppend(s[..i + 1], s[i + 1..]);
  }

  // ---- writing into a buffer

  /** The buffer begins with the text `done`. */
  ghost predicate Begins(out: array<char>, done: string)
    reads out
  {
    |done| <= out.Length && out[..|done|] == done
  }

  /** The buffer begins with the C string `text`. */
  ghost predicate Renders(out: array<char>, text: string)
    reads out
  {
    NulFree(text) && |text| < out.Length && Begins(out, text) && out[|text|] == NUL
  }

  lemma BeginsEmpty(out: array<char>)
    ensures Begins(out, "")
  {
  }

  /** Adds `text` to what the buffer begins with, at position `at`. */
  method WriteText(out: array<char>, at: nat, ghost done: string, text: string)
    requires at == |done| && Begins(out, done) && at + |text| <= out.Length
    modifies out
    ensures Begins(out, done + text)
  {
    for i := 0 to |text|
      invariant Begins(out, done + text[..i])
    {
      out[at + i] := text[i];
      assert out[..at + i + 1] == out[..at + i] + [text[i]];
      assert done + text[..i + 1] == done + text[..i] + [text[i]];
    }
    assert text[..|text|] == text;
  }

  /** Adds `text` and a terminator, as `strcpy` does. */
  method WriteTerminated(out: array<char>, at: nat, ghost done: string, text: string)
    requires at == |done| && Begins(out, done) && at + |text| < out.Length
    modifies out
    ensures Begins(out, done + text) && out[at + |text|] == NUL
  {
    WriteText(out, at, done, text);
    ghost var before := out[..at + |text|];
    out[at + |text|] := NUL;
    assert out[..at + |text|] == before;
  }

  /** Whether a string holds a character that must be escaped. */
  method NeedsEscapes(s: string) returns (flag: bool)
    ensures flag <==> exists i :: 0 <= i < |s| && NeedsEscape(s[i])
  {
    flag := false;
    for i := 0 to |s|
      invariant flag <==> exists k :: 0 <= k < i && NeedsEscape(s[k])
    {
      flag := flag || NeedsEscape(s[i]);
    }
  }

  method EscapedLength(s: string) returns (len: nat)
    ensures len == |EscapedAll(s)|
  {
    len := 0;
    for i := 0 to |s|
      invariant len == |EscapedAll(s[..i])|
    {
      EscapedPrefix(s, i);
      len := len + 1;
      if HasShortEscape(s[i]) {
        len := len + 1;
      } else if s[i] as int < 32 {
        len := len + 5;
      }
    }
    assert s[..|s|] == s;
  }

  /** The space a string asks for: quotes and terminator included. */
  method StringSpace(s: string) returns (space: nat)
    ensures space == |StringText(s)| + 1
  {
    var flag := NeedsEscapes(s);
    if !flag {
      PlainString(s);
      space := |s| + 3;
    } else {
      var len := EscapedLength(s);
      space := len + 3;
    }
  }

  method WriteEscaped(out: array<char>, at: nat, ghost done: string, s: string) returns (end: nat)
    requires at == |done| && Begins(out, done) && at + |EscapedAll(s)| <= out.Length
    modifies out
    ensures end == at + |EscapedAll(s)| && Begins(out, done + EscapedAll(s))
  {
    hide Escaped, EscapedAll, Begins;
    end := at;
    assert EscapedAll(s[..0]) == "" && done + "" == done by { EscapedNothing(); }
    for i := 0 to |s|
      invariant end == at + |EscapedAll(s[..i])| <= out.Length
      invariant Begins(out, done + EscapedAll(s[..i]))
    {
      EscapedPrefix(s, i);
      WriteText(out, end, done + EscapedAll(s[..i]), Escaped(s[i]));
      assert done + EscapedAll(s[..i + 1]) == done + EscapedAll(s[..i]) + Escaped(s[i]);
      end := end + |Escaped(s[i])|;
    }
    assert s[..|s|] == s;
  }

  /** Adds the quoted form of `s`, copying it when nothing in it needs an escape. */
  method WriteString(out: array<char>, at: nat, ghost done: string, s: string)
    requires at == |done| && Begins(out, done) && at + |StringText(s)| < out.Length
    modifies out
    ensures Begins(out, done + StringText(s)) && out[at + |StringText(s)|] == NUL
  {
    hide EscapedAll, Begins;
    var flag := NeedsEscapes(s);
    if !flag {
      PlainString(s);
      WriteTerminated(out, at, done, "\"" + (s + "\""));
    } else {
      WriteText(out, at, done, "\"");
      var end := WriteEscaped(out, at + 1, done + "\"", s);
      WriteTerminated(out, end, done + "\"" + EscapedAll(s), "\"");
      assert done + "\"" + EscapedAll(s) + "\"" == done + ("\"" + (EscapedAll(s) + "\""));
    }
  }

  // ---- printed text holds no NUL, so the length of a printed string is where its NUL is

  lemma EscapedNulFree(c: char)
    requires c != NUL
    ensures NulFree(Escaped(c))
  {
  }

  lemma {:induction false} EscapedAllNulFree(s: string)
    requires NulFree(s)
    ensures NulFree(EscapedAll(s))
  {
    hide Escaped;
    if s != "" {
      EscapedNulFree(s[0]);
      EscapedAllNulFree(s[1..]);
    }
  }

  lemma JoinNulFree(a: string, b: string)
    ensures NulFree(a + b) <==> NulFree(a) && NulFree(b)
  {
    if NulFree(a + b) {
      assert forall i :: 0 <= i < |a| ==> a[i] == (a + b)[i];
      assert forall i :: 0 <= i < |b| ==> b[i] == (a + b)[|a| + i];
    }
  }

  lemma {:induction false} TextNulFree(t: Json, depth: nat, fmt: bool)
    requires Printable(t)
    ensures NulFree(Text(t, depth, fmt))
    decreases t, 1
  {
    match t
    case String(s) =>
      EscapedAllNulFree(s);
    case Array(items) =>
      ItemsNulFree(items, depth + 1, fmt);
      hide NulFree, Printable;
      PunctuationNulFree(depth, fmt);
      JoinNulFree(ItemsText(items, depth + 1, fmt), "]");
      JoinNulFree("[", ItemsText(items, depth + 1, fmt) + "]");
    case Object(members) =>
      MembersNulFree(members, depth + 1, fmt);
      hide NulFree, Printable;
      PunctuationNulFree(depth, fmt);
      var body, indent := MembersText(members, depth + 1, fmt), Indent(members, depth, fmt);
      IndentNulFree(members, depth, fmt);
      JoinNulFree(indent, "}");
      JoinNulFree(body, indent + "}");
      JoinNulFree(When(fmt, "\n"), body + (indent + "}"));
      JoinNulFree("{", When(fmt, "\n") + (body + (indent + "}")));
    case _ =>
  }

  lemma IndentNulFree(members: seq<Member>, depth: nat, fmt: bool)
    ensures NulFree(Indent(members, depth, fmt))
  {
  }

  lemma PunctuationNulFree(depth: nat, fmt: bool)
    ensures NulFree("[") && NulFree("]") && NulFree("{") && NulFree("}") && NulFree(":") && NulFree(",")
    ensures NulFree(When(fmt, "\n")) && NulFree(When(fmt, "\t")) && NulFree(When(fmt, " "))
    ensures NulFree(When(fmt, Tabs(depth))) && NulFree(When(true, ",")) && NulFree(When(false, ","))
  {
  }

  lemma {:induction false} ItemsNulFree(items: seq<Json>, depth: nat, fmt: bool)
    requires Printable(Array(items))
    ensures NulFree(ItemsText(items, depth, fmt))
    decreases items, 0
  {
    if items != [] {
      TextNulFree(items[0], depth, fmt);
      assert Printable(Array(items[1..]));
      ItemsNulFree(items[1..], depth, fmt);
    }
  }

  lemma {:induction false} MembersNulFree(members: seq<Member>, depth: nat, fmt: bool)
    requires Printable(Object(members))
    ensures NulFree(MembersText(members, depth, fmt))
    decreases members, 0
  {
    if members != [] {
      var m, more := members[0], |members| > 1;
      assert NulFree(m.name) && Printable(m.value) && Printable(Object(members[1..]));
      hide NulFree, Printable, Text, MemberText;
      MemberNulFree(m, depth, fmt, more);
      MembersNulFree(members[1..], depth, fmt);
      JoinNulFree(MemberText(m, depth, fmt, more), MembersText(members[1..], depth, fmt));
    }
  }

  lemma {:induction false} MemberNulFree(m: Member, depth: nat, fmt: bool, more: bool)
    requires NulFree(m.name) && Printable(m.value)
    ensures NulFree(MemberText(m, depth, fmt, more))
    decreases m, 1
  {
    hide NulFree, Printable, Text, StringText, When;
    NameNulFree(m.name);
    TextNulFree(m.value, depth, fmt);
    PunctuationNulFree(depth, fmt);
    var comma, nl, value, tab, name := When(more, ","), When(fmt, "\n"), Text(m.value, depth, fmt), When(fmt, "\t"), StringText(m.name);
    JoinNulFree(comma, nl);
    JoinNulFree(value, comma + nl);
    JoinNulFree(tab, value + (comma + nl));
    JoinNulFree(":", tab + (value + (comma + nl)));
    JoinNulFree(name, ":" + (tab + (value + (comma + nl))));
    JoinNulFree(When(fmt, Tabs(depth)), name + (":" + (tab + (value + (comma + nl)))));
  }

  lemma NameNulFree(s: string)
    requires NulFree(s)
    ensures NulFree(StringText(s))
  {
    EscapedAllNulFree(s);
  }

  /** Reads a C string out of a buffer, up to its NUL. */
  method ReadBack(out: array<char>, ghost text: string) returns (r: string)
    requires Renders(out, text)
    ensures r == text
  {
    var n := 0;
    assert forall k :: 0 <= k < |text| ==> out[k] == out[..|text|][k];
    while out[n] != NUL
      invariant n <= |text|
      decreases |text| - n
    {
      n := n + 1;
    }
    r := out[..n];
  }

  // ---- the two-pass printer

  method NewText(size: nat, text: string) returns (out: array<char>)
    requires |text| < size && NulFree(text)
    ensures fresh(out) && Renders(out, text)
  {
    out := new char[size];
    WriteTerminated(out, 0, "", text);
    assert "" + text == text;
  }

  /** Prints a tree into memory of its own. */
  method PrintValue(t: Json, depth: nat, fmt: bool) returns (out: array<char>)
    requires Printable(t)
    ensures fresh(out) && Renders(out, Text(t, depth, fmt))
    decreases t, 1
  {
    TextNulFree(t, depth, fmt);
    match t
    case Null => out := NewText(5, "null");
    case False => out := NewText(6, "false");
    case True => out := NewText(5, "true");
    case Number(n) =>
      if n == 0 { out := NewText(2, "0"); } else { IntTextShort(n); out := NewText(21, IntText(n)); }
    case String(s) =>
      var space := StringSpace(s);
      out := new char[space];
      WriteString(out, 0, "", s);
      assert "" + StringText(s) == StringText(s);
    case Array(items) => out := PrintArray(items, depth, fmt);
    case Object(members) => out := PrintObject(members, depth, fmt);
  }

  lemma NatTextShort(n: nat, digits: nat, bound: nat)
    requires digits >= 1 && bound == Pow10(digits) && n < bound
    ensures |NatText(n)| <= digits
    decreases digits
  {
    if n >= 10 {
      assert digits > 1 && bound == 10 * Pow10(digits - 1);
      NatTextShort(n / 10, digits - 1, Pow10(digits - 1));
    }
  }

  /** An `int` prints in at most 11 characters, well inside the 21 bytes asked for. */
  lemma IntTextShort(n: int)
    requires -0x8000_0000 <= n < 0x8000_0000
    ensures |IntText(n)| <= 11
  {
    assert Pow10(10) == 10000000000;
    NatTextShort(if n < 0 then -n else n, 10, 10000000000);
  }

  lemma ItemsFirst(items: seq<Json>, i: nat, depth: nat, fmt: bool)
    requires i < |items|
    ensures ItemsText(items[i..], depth, fmt)
         == Text(items[i], depth, fmt)
          + (When(i + 1 < |items|, "," + When(fmt, " ")) + ItemsText(items[i + 1..], depth, fmt))
  {
    hide Text;
    var rest := items[i..];
    assert rest[0] == items[i] && rest[1..] == items[i + 1..];
    if i + 1 < |items| {
      assert "," + (When(fmt, " ") + ItemsText(rest[1..], depth, fmt)) == ("," + When(fmt, " ")) + ItemsText(rest[1..], depth, fmt);
    } else {
      assert rest[1..] == [];
      assert Text(items[i], depth, fmt) + ("" + "") == Text(items[i], depth, fmt);
    }
  }

  method PrintArray(items: seq<Json>, depth: nat, fmt: bool) returns (out: array<char>)
    requires Printable(Array(items))
    ensures fresh(out) && Renders(out, Text(Array(items), depth, fmt))
    decreases items, 3
  {
    TextNulFree(Array(items), depth, fmt);
    if items == [] {
      out := NewText(3, "[]");
      return;
    }
    hide Text, NulFree, ItemsText, Renders;
    var entries, len := PrintEntries(items, depth + 1, fmt);
    out := new char[len];
    ComposeArray(out, items, entries, depth, fmt);
  }

  /** Prints the items one by one and adds up the space they need. */
  method PrintEntries(items: seq<Json>, depth: nat, fmt: bool) returns (entries: seq<string>, len: nat)
    requires Printable(Array(items))
    ensures |entries| == |items| && forall k :: 0 <= k < |items| ==> entries[k] == Text(items[k], depth, fmt)
    ensures len >= 5 + |ItemsText(items, depth, fmt)|
    decreases items, 2
  {
    hide Text, NulFree, ItemsText, Renders;
    ghost var whole := ItemsText(items, depth, fmt);
    entries, len := [], 5;
    assert items[0..] == items;
    for i := 0 to |items|
      invariant |entries| == i && forall k :: 0 <= k < i ==> entries[k] == Text(items[k], depth, fmt)
      invariant len >= 5 + |whole| - |ItemsText(items[i..], depth, fmt)|
    {
      var ret := PrintValue(items[i], depth, fmt);
      var text := ReadBack(ret, Text(items[i], depth, fmt));
      ItemsFirst(items, i, depth, fmt);
      entries, len := entries + [text], len + |text| + 2 + (if fmt then 1 else 0);
    }
    NothingLeft(items, depth, fmt);
  }

  method ComposeArray(out: array<char>, ghost items: seq<Json>, entries: seq<string>, ghost depth: nat, fmt: bool)
    requires out.Length >= 5 + |ItemsText(items, depth + 1, fmt)| && |entries| == |items|
    requires forall k :: 0 <= k < |items| ==> entries[k] == Text(items[k], depth + 1, fmt)
    requires NulFree(Text(Array(items), depth, fmt))
    modifies out
    ensures Renders(out, Text(Array(items), depth, fmt))
  {
    ghost var whole := ItemsText(items, depth + 1, fmt);
    assert Text(Array(items), depth, fmt) == "[" + (whole + "]");
    BeginsEmpty(out);
    hide Text, NulFree, Begins, ItemsText;
    WriteText(out, 0, "", "[");
    var ptr := 1;
    ghost var done := "[";
    assert items[0..] == items && "" + "[" == "[";
    for i := 0 to |entries|
      invariant ptr == |done| && Begins(out, done) && done + ItemsText(items[i..], depth + 1, fmt) == "[" + whole
    {
      ItemsFirst(items, i, depth + 1, fmt);
      ghost var rest := ItemsText(items[i + 1..], depth + 1, fmt);
      var text, sep := entries[i], When(i + 1 < |entries|, "," + When(fmt, " "));
      Advance(done, text, sep, rest, "[" + whole);
      WriteText(out, ptr, done, text);
      WriteText(out, ptr + |text|, done + text, sep);
      ptr, done := ptr + |text| + |sep|, done + text + sep;
    }
    assert done == "[" + whole by { NothingLeft(items, depth + 1, fmt); }
    WriteTerminated(out, ptr, done, "]");
    assert done + "]" == "[" + (whole + "]");
  }

  /** Moving two pieces from what is left to what is done. */
  lemma Advance(done: string, a: string, b: string, rest: string, whole: string)
    requires done + (a + (b + rest)) == whole
    ensures done + a + b + rest == whole && |done| + |a| + |b| <= |whole|
  {
  }

  lemma NothingLeft(items: seq<Json>, depth: nat, fmt: bool)
    ensures ItemsText(items[|items|..], depth, fmt) == ""
  {
  }

  lemma MembersFirst(members: seq<Member>, i: nat, depth: nat, fmt: bool)
    requires i < |members|
    ensures MembersText(members[i..], depth, fmt)
         == MemberText(members[i], depth, fmt, i + 1 < |members|) + MembersText(members[i + 1..], depth, fmt)
  {
    hide MemberText;
    var rest := members[i..];
    assert rest[0] == members[i] && rest[1..] == members[i + 1..];
  }

  lemma MemberLength(m: Member, depth: nat, fmt: bool, more: bool)
    ensures |MemberText(m, depth, fmt, more)|
         <= |Text(m.value, depth, fmt)| + |StringText(m.name)| + 2 + (if fmt then 2 + depth else 0)
  {
    hide Text, StringText;
  }

  method PrintObject(members: seq<Member>, depth: nat, fmt: bool) returns (out: array<char>)
    requires Printable(Object(members))
    ensures fresh(out) && Renders(out, Text(Object(members), depth, fmt))
    decreases members, 4
  {
    TextNulFree(Object(members), depth, fmt);
    if members == [] {
      EmptyObjectText(depth, fmt);
      out := NewText(if fmt then depth + 4 else 3, "{" + (When(fmt, "\n" + Tabs(depth - 1)) + "}"));
      return;
    }
    var names, entries, len := PrintMembers(members, depth, fmt);
    out := new char[len];
    ComposeObject(out, members, names, entries, depth, fmt);
  }

  /** The first pass: every name and value printed on its own, and the space they need. */
  method PrintMembers(members: seq<Member>, depth: nat, fmt: bool)
    returns (names: seq<string>, entries: seq<string>, len: nat)
    requires Printable(Object(members))
    ensures |names| == |entries| == |members|
    ensures forall k :: 0 <= k < |members| ==>
      names[k] == StringText(members[k].name) && entries[k] == Text(members[k].value, depth + 1, fmt)
    ensures len >= (if fmt then 7 + (depth + 1) else 7) + |MembersText(members, depth + 1, fmt)|
    decreases members, 3
  {
    hide Text, StringText, MemberText, MembersText, NulFree, Renders;
    ghost var whole := MembersText(members, depth + 1, fmt);
    names, entries, len := [], [], if fmt then 7 + (depth + 1) else 7;
    ghost var start := len;
    assert members[0..] == members;
    for i := 0 to |members|
      invariant |names| == |entries| == i
      invariant forall k :: 0 <= k < i ==>
        names[k] == StringText(members[k].name) && entries[k] == Text(members[k].value, depth + 1, fmt)
      invariant len >= start + |whole| - |MembersText(members[i..], depth + 1, fmt)|
    {
      var name := PrintName(members[i].name);
      var ret := PrintValue(members[i].value, depth + 1, fmt);
      var text := ReadBack(ret, Text(members[i].value, depth + 1, fmt));
      MembersFirst(members, i, depth + 1, fmt);
      MemberLength(members[i], depth + 1, fmt, i + 1 < |members|);
      names, entries := names + [name], entries + [text];
      len := len + |text| + |name| + 2 + (if fmt then 2 + (depth + 1) else 0);
    }
    NoMembersLeft(members, depth + 1, fmt);
  }

  /** The text of an empty object, whose closing brace is indented one level less. */
  lemma EmptyObjectText(depth: nat, fmt: bool)
    ensures Text(Object([]), depth, fmt) == "{" + (When(fmt, "\n" + Tabs(depth - 1)) + "}")
  {
    assert Text(Object([]), depth, fmt) == "{" + (When(fmt, "\n") + ("" + (When(fmt, Tabs(depth - 1)) + "}")));
  }

  /** A member's name, printed into memory of its own and read from there. */
  method PrintName(name: string) returns (text: string)
    requires NulFree(name)
    ensures text == StringText(name)
  {
    NameNulFree(name);
    var space := StringSpace(name);
    var out := new char[space];
    WriteString(out, 0, "", name);
    assert "" + StringText(name) == StringText(name);
    text := ReadBack(out, StringText(name));
  }

  method WriteMember(out: array<char>, at: nat, ghost done: string, ghost m: Member, name: string, value: string,
                     depth: nat, fmt: bool, more: bool) returns (end: nat)
    requires name == StringText(m.name) && value == Text(m.value, depth, fmt)
    requires at == |done| && Begins(out, done) && at + |MemberText(m, depth, fmt, more)| <= out.Length
    modifies out
    ensures end == at + |MemberText(m, depth, fmt, more)| && Begins(out, done + MemberText(m, depth, fmt, more))
  {
    hide Text, StringText, Tabs, Begins;
    var tabs, tab, comma, nl := When(fmt, Tabs(depth)), When(fmt, "\t"), When(more, ","), When(fmt, "\n");
    WriteText(out, at, done, tabs);
    ghost var w := done + tabs;
    WriteText(out, at + |tabs|, w, name);
    w := w + name;
    WriteText(out, at + |tabs| + |name|, w, ":");
    w := w + ":";
    end := at + |tabs| + |name| + 1;
    WriteText(out, end, w, tab);
    w := w + tab;
    WriteText(out, end + |tab|, w, value);
    w := w + value;
    end := end + |tab| + |value|;
    WriteText(out, end, w, comma);
    w := w + comma;
    WriteText(out, end + |comma|, w, nl);
    end := end + |comma| + |nl|;
    Regroup7(done, tabs, name, tab, value, comma, nl);
  }

  lemma Regroup7(start: string, tabs: string, name: string, tab: string, value: string, comma: string, nl: string)
    ensures start + tabs + name + ":" + tab + value + comma + nl
         == start + (tabs + (name + (":" + (tab + (value + (comma + nl))))))
  {
  }

  lemma ObjectText(members: seq<Member>, depth: nat, fmt: bool)
    requires members != []
    ensures Text(Object(members), depth, fmt)
         == "{" + (When(fmt, "\n") + (MembersText(members, depth + 1, fmt) + (When(fmt, Tabs(depth)) + "}")))
    ensures |When(fmt, "\n")| + |When(fmt, Tabs(depth))| <= if fmt then 1 + depth else 0
  {
  }

  method ComposeMembers(out: array<char>, open: string, ghost members: seq<Member>, names: seq<string>, entries: seq<string>,
                        depth: nat, fmt: bool) returns (ptr: nat)
    requires |names| == |entries| == |members|
    requires Begins(out, open) && |open| + |MembersText(members, depth, fmt)| <= out.Length
    requires forall k :: 0 <= k < |members| ==>
      names[k] == StringText(members[k].name) && entries[k] == Text(members[k].value, depth, fmt)
    modifies out
    ensures ptr == |open| + |MembersText(members, depth, fmt)| && Begins(out, open + MembersText(members, depth, fmt))
  {
    hide Text, MemberText, StringText, MembersText, Begins;
    ghost var whole := MembersText(members, depth, fmt);
    ptr := |open|;
    ghost var done := open;
    assert members[0..] == members;
    for i := 0 to |entries|
      invariant ptr == |done| && Begins(out, done) && done + MembersText(members[i..], depth, fmt) == open + whole
    {
      MembersFirst(members, i, depth, fmt);
      ghost var head, rest := MemberText(members[i], depth, fmt, i + 1 < |members|), MembersText(members[i + 1..], depth, fmt);
      AdvanceOne(done, head, rest, open + whole);
      ptr := WriteMember(out, ptr, done, members[i], names[i], entries[i], depth, fmt, i + 1 < |entries|);
      done := done + head;
    }
    assert done == open + whole by { NoMembersLeft(members, depth, fmt); }
  }

  method ComposeObject(out: array<char>, ghost members: seq<Member>, names: seq<string>, entries: seq<string>, depth: nat, fmt: bool)
    requires members != [] && |names| == |entries| == |members|
    requires out.Length >= (if fmt then 7 + (depth + 1) else 7) + |MembersText(members, depth + 1, fmt)|
    requires forall k :: 0 <= k < |members| ==>
      names[k] == StringText(members[k].name) && entries[k] == Text(members[k].value, depth + 1, fmt)
    requires NulFree(Text(Object(members), depth, fmt))
    modifies out
    ensures Renders(out, Text(Object(members), depth, fmt))
  {
    hide Text, When, NulFree, MembersText, StringText, Tabs, Begins, Renders;
    ghost var whole := MembersText(members, depth + 1, fmt);
    ObjectText(members, depth, fmt);
    BeginsEmpty(out);
    var open, indent := "{" + When(fmt, "\n"), When(fmt, Tabs(depth));
    WriteText(out, 0, "", open);
    assert "" + open == open;
    var ptr := ComposeMembers(out, open, members, names, entries, depth + 1, fmt);
    Regroup5(When(fmt, "\n"), whole, indent);
    CloseObject(out, ptr, open + whole, indent);
  }

  method CloseObject(out: array<char>, ptr: nat, ghost done: string, indent: string)
    requires ptr == |done| && Begins(out, done) && |done| + |indent| + 2 <= out.Length
    requires NulFree(done + indent + "}")
    modifies out
    ensures Renders(out, done + indent + "}")
  {
    WriteText(out, ptr, done, indent);
    WriteTerminated(out, ptr + |indent|, done + indent, "}");
  }

  lemma AdvanceOne(done: string, a: string, rest: string, whole: string)
    requires done + (a + rest) == whole
    ensures done + a + rest == whole && |done| + |a| <= |whole|
  {
  }

  lemma NoMembersLeft(members: seq<Member>, depth: nat, fmt: bool)
    ensures MembersText(members[|members|..], depth, fmt) == ""
  {
  }

  lemma Regroup5(nl: string, whole: string, indent: string)
    ensures "{" + nl + whole + indent + "}" == "{" + (nl + (whole + (indent + "}")))
  {
  }
}
