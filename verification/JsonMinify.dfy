/** The minifier, which strips white space and comments outside string literals, in place. */
module JsonMinify {
  import opened Json
  import JsonPrinter

  // ---- the minifier as a function of the text and a position

  predicate IsSpace(c: char) {
    c == ' ' || c == '\t' || c == '\r' || c == '\n'
  }

  function LineEnd(s: string, i: nat): (j: nat)
    ensures j >= i
    decreases |s| - i
  {
    if At(s, i) != NUL && At(s, i) != '\n' then LineEnd(s, i + 1) else i
  }

  function CommentEnd(s: string, i: nat): (j: nat)
    ensures j >= i
    decreases |s| - i
  {
    if At(s, i) != NUL && !(At(s, i) == '*' && At(s, i + 1) == '/') then CommentEnd(s, i + 1) else i
  }

  /** Where the literal that is open at `i` is closed; a backslash protects one character. */
  function LiteralEnd(s: string, i: nat): (j: nat)
    ensures j >= i
    decreases |s| - i
  {
    if At(s, i) == NUL || At(s, i) == '"' then i
    else if At(s, i) == '\\' then LiteralEnd(s, i + 2)
    else LiteralEnd(s, i + 1)
  }

  function Copy(s: string, from: nat, to: nat): string
    requires from <= to
  {
    seq(to - from, k requires 0 <= k => At(s, from + k))
  }

  function Minified(s: string, i: nat): string
    decreases |s| - i
  {
    var c := At(s, i);
    if c == NUL then ""
    else if IsSpace(c) then Minified(s, i + 1)
    else if c == '/' && At(s, i + 1) == '/' then Minified(s, LineEnd(s, i))
    else if c == '/' && At(s, i + 1) == '*' then Minified(s, CommentEnd(s, i) + 2)
    else if c == '"' then
      var e := LiteralEnd(s, i + 1);
      Copy(s, i, e + 1) + Minified(s, e + 1)
    else [c] + Minified(s, i + 1)
  }

  /** Every string literal and every comment from `i` on is closed, so the minifier never steps
      over the end of the text. */
  predicate Closed(s: string, i: nat)
    decreases |s| - i
  {
    var c := At(s, i);
    if c == NUL then true
    else if c == '/' && At(s, i + 1) == '/' then Closed(s, LineEnd(s, i))
    else if c == '/' && At(s, i + 1) == '*' then
      var e := CommentEnd(s, i);
      At(s, e) != NUL && Closed(s, e + 2)
    else if c == '"' then
      var e := LiteralEnd(s, i + 1);
      At(s, e) != NUL && Closed(s, e + 1)
    else Closed(s, i + 1)
  }

  // ---- formatted text minifies to unformatted text

  lemma {:induction false} SpaceGoes(s: string, i: nat, space: string)
    requires Reads(s, i, space) && forall k :: 0 <= k < |space| ==> IsSpace(space[k])
    ensures Minified(s, i) == Minified(s, i + |space|)
    ensures Closed(s, i) == Closed(s, i + |space|)
    decreases |space|
  {
    if space != "" {
      ReadsAt(s, i, space, 0);
      assert space == space[..1] + space[1..];
      ReadsSplit(s, i, space[..1], space[1..]);
      SpaceGoes(s, i + 1, space[1..]);
    }
  }

  predicate Plain(c: char) {
    c != NUL && !IsSpace(c) && c != '/' && c != '"'
  }

  lemma {:induction false} PlainStays(s: string, i: nat, text: string)
    requires Reads(s, i, text) && forall k :: 0 <= k < |text| ==> Plain(text[k])
    ensures Minified(s, i) == text + Minified(s, i + |text|)
    ensures Closed(s, i) == Closed(s, i + |text|)
    decreases |text|
  {
    if text != "" {
      ReadsAt(s, i, text, 0);
      assert text == text[..1] + text[1..];
      ReadsSplit(s, i, text[..1], text[1..]);
      PlainStays(s, i + 1, text[1..]);
      assert text + Minified(s, i + |text|) == [text[0]] + (text[1..] + Minified(s, i + |text|));
    }
  }

  lemma LiteralCharPassed(s: string, i: nat, c: char)
    requires c != NUL && Reads(s, i, Escaped(c))
    ensures LiteralEnd(s, i) == LiteralEnd(s, i + |Escaped(c)|)
  {
    var e := Escaped(c);
    ReadsAt(s, i, e, 0);
    if NeedsEscape(c) && !HasShortEscape(c) {
      ReadsAt(s, i, e, 2);
      ReadsAt(s, i, e, 3);
      ReadsAt(s, i, e, 4);
      ReadsAt(s, i, e, 5);
      assert LiteralEnd(s, i + 2) == LiteralEnd(s, i + 3) == LiteralEnd(s, i + 4);
      assert LiteralEnd(s, i + 4) == LiteralEnd(s, i + 5) == LiteralEnd(s, i + 6);
    }
  }

  lemma {:induction false} LiteralPassed(s: string, i: nat, text: string)
    requires NulFree(text) && Reads(s, i, EscapedAll(text))
    ensures LiteralEnd(s, i) == LiteralEnd(s, i + |EscapedAll(text)|)
    decreases |text|
  {
    hide Reads, LiteralEnd, Escaped;
    if text != "" {
      ReadsSplit(s, i, Escaped(text[0]), EscapedAll(text[1..]));
      LiteralCharPassed(s, i, text[0]);
      LiteralPassed(s, i + |Escaped(text[0])|, text[1..]);
    }
  }

  /** A string literal survives untouched, whatever quotes, backslashes, spaces or slashes it
      holds. */
  lemma StringStays(s: string, i: nat, text: string)
    requires NulFree(text) && Reads(s, i, StringText(text))
    ensures Minified(s, i) == StringText(text) + Minified(s, i + |StringText(text)|)
    ensures Closed(s, i) == Closed(s, i + |StringText(text)|)
  {
    hide Reads, EscapedAll, Escaped;
    var body, whole := EscapedAll(text), StringText(text);
    ReadsSplit(s, i, "\"", body + "\"");
    ReadsSplit(s, i + 1, body, "\"");
    ReadsAt(s, i, "\"", 0);
    ReadsAt(s, i + 1 + |body|, "\"", 0);
    LiteralPassed(s, i + 1, text);
    var e := i + 1 + |body|;
    assert LiteralEnd(s, i + 1) == e;
    assert Copy(s, i, e + 1) == whole by {
      forall k | 0 <= k < |whole| ensures Copy(s, i, e + 1)[k] == whole[k] { ReadsAt(s, i, whole, k); }
    }
  }

  lemma {:induction false} ValueMinifies(s: string, i: nat, t: Json, depth: nat)
    requires Printable(t) && Reads(s, i, Text(t, depth, true))
    ensures Minified(s, i) == Text(t, depth, false) + Minified(s, i + |Text(t, depth, true)|)
    ensures Closed(s, i) == Closed(s, i + |Text(t, depth, true)|)
    decreases t, 1
  {
    hide Reads, Closed, Minified;
    match t
    case Null => PlainStays(s, i, "null");
    case False => PlainStays(s, i, "false");
    case True => PlainStays(s, i, "true");
    case Number(n) => PlainStays(s, i, IntText(n));
    case String(x) => StringStays(s, i, x);
    case Array(items) => ArrayMinifies(s, i, items, depth);
    case Object(members) => ObjectMinifies(s, i, members, depth);
  }

  lemma {:induction false} ArrayMinifies(s: string, i: nat, items: seq<Json>, depth: nat)
    requires Printable(Array(items)) && Reads(s, i, Text(Array(items), depth, true))
    ensures Minified(s, i)
         == Text(Array(items), depth, false) + Minified(s, i + |Text(Array(items), depth, true)|)
    ensures Closed(s, i) == Closed(s, i + |Text(Array(items), depth, true)|)
    decreases items, 3
  {
    hide Reads, Closed, Minified, ItemsText;
    var body, body' := ItemsText(items, depth + 1, true), ItemsText(items, depth + 1, false);
    ReadsSplit(s, i, "[", body + "]");
    ReadsSplit(s, i + 1, body, "]");
    PlainStays(s, i, "[");
    ItemsMinify(s, i + 1, items, depth + 1);
    PlainStays(s, i + 1 + |body|, "]");
    Regroup3("[", body', "]", Minified(s, i + 1 + |body| + 1));
  }

  lemma Regroup3(a: string, b: string, c: string, rest: string)
    ensures a + (b + (c + rest)) == (a + (b + c)) + rest
  {
  }

  lemma {:induction false} ItemsMinify(s: string, i: nat, items: seq<Json>, depth: nat)
    requires Printable(Array(items)) && Reads(s, i, ItemsText(items, depth, true))
    ensures Minified(s, i) == ItemsText(items, depth, false) + Minified(s, i + |ItemsText(items, depth, true)|)
    ensures Closed(s, i) == Closed(s, i + |ItemsText(items, depth, true)|)
    decreases items, 2
  {
    hide Reads, Closed, Minified, Text;
    if items != [] {
      var t := items[0];
      var first, first' := Text(t, depth, true), Text(t, depth, false);
      if |items| == 1 {
        ValueMinifies(s, i, t, depth);
      } else {
        var rest, rest' := ItemsText(items[1..], depth, true), ItemsText(items[1..], depth, false);
        ReadsSplit(s, i, first, "," + (" " + rest));
        var j := i + |first|;
        ReadsSplit(s, j, ",", " " + rest);
        ReadsSplit(s, j + 1, " ", rest);
        ValueMinifies(s, i, t, depth);
        PlainStays(s, j, ",");
        SpaceGoes(s, j + 1, " ");
        assert Printable(Array(items[1..]));
        ItemsMinify(s, j + 2, items[1..], depth);
        Regroup3(first', ",", rest', Minified(s, j + 2 + |rest|));
        assert "" + rest' == rest';
      }
    }
  }

  lemma {:induction false} ObjectMinifies(s: string, i: nat, members: seq<Member>, depth: nat)
    requires Printable(Object(members)) && Reads(s, i, Text(Object(members), depth, true))
    ensures Minified(s, i)
         == Text(Object(members), depth, false) + Minified(s, i + |Text(Object(members), depth, true)|)
    ensures Closed(s, i) == Closed(s, i + |Text(Object(members), depth, true)|)
    decreases members, 3
  {
    hide Reads, Closed, Minified, MembersText, Tabs;
    var body, body', indent := MembersText(members, depth + 1, true), MembersText(members, depth + 1, false), Indent(members, depth, true);
    ReadsSplit(s, i, "{", "\n" + (body + (indent + "}")));
    ReadsSplit(s, i + 1, "\n", body + (indent + "}"));
    ReadsSplit(s, i + 2, body, indent + "}");
    var e := i + 2 + |body|;
    ReadsSplit(s, e, indent, "}");
    PlainStays(s, i, "{");
    SpaceGoes(s, i + 1, "\n");
    MembersMinify(s, i + 2, members, depth + 1);
    SpaceGoes(s, e, indent);
    PlainStays(s, e + |indent|, "}");
    Regroup3("{", body', "}", Minified(s, e + |indent| + 1));
    assert "" + (body' + ("" + "}")) == body' + "}";
  }

  lemma {:induction false} MembersMinify(s: string, i: nat, members: seq<Member>, depth: nat)
    requires Printable(Object(members)) && Reads(s, i, MembersText(members, depth, true))
    ensures Minified(s, i) == MembersText(members, depth, false) + Minified(s, i + |MembersText(members, depth, true)|)
    ensures Closed(s, i) == Closed(s, i + |MembersText(members, depth, true)|)
    decreases members, 2
  {
    hide Reads, Closed, Minified, MemberText;
    if members != [] {
      var m, more := members[0], |members| > 1;
      var head, head' := MemberText(m, depth, true, more), MemberText(m, depth, false, more);
      var rest, rest' := MembersText(members[1..], depth, true), MembersText(members[1..], depth, false);
      ReadsSplit(s, i, head, rest);
      MemberMinifies(s, i, m, depth, more);
      assert Printable(Object(members[1..]));
      MembersMinify(s, i + |head|, members[1..], depth);
      assert head' + (rest' + Minified(s, i + |head| + |rest|)) == (head' + rest') + Minified(s, i + |head| + |rest|);
    }
  }

  lemma {:induction false} MemberMinifies(s: string, i: nat, m: Member, depth: nat, more: bool)
    requires NulFree(m.name) && Printable(m.value) && Reads(s, i, MemberText(m, depth, true, more))
    ensures Minified(s, i) == MemberText(m, depth, false, more) + Minified(s, i + |MemberText(m, depth, true, more)|)
    ensures Closed(s, i) == Closed(s, i + |MemberText(m, depth, true, more)|)
    decreases m, 1
  {
    hide Reads, Closed, Minified, Text, StringText, Tabs, Printable;
    var tabs, name, comma := Tabs(depth), StringText(m.name), When(more, ",");
    var value, value' := Text(m.value, depth, true), Text(m.value, depth, false);
    ReadsSplit(s, i, tabs, name + (":" + ("\t" + (value + (comma + "\n")))));
    var a := i + |tabs|;
    ReadsSplit(s, a, name, ":" + ("\t" + (value + (comma + "\n"))));
    var b := a + |name|;
    ReadsSplit(s, b, ":", "\t" + (value + (comma + "\n")));
    ReadsSplit(s, b + 1, "\t", value + (comma + "\n"));
    var c := b + 2;
    ReadsSplit(s, c, value, comma + "\n");
    var v := c + |value|;
    ReadsSplit(s, v, comma, "\n");
    SpaceGoes(s, i, tabs);
    StringStays(s, a, m.name);
    PlainStays(s, b, ":");
    SpaceGoes(s, b + 1, "\t");
    ValueMinifies(s, c, m.value, depth);
    PlainStays(s, v, comma);
    SpaceGoes(s, v + |comma|, "\n");
    Regroup4(name, value', comma, Minified(s, v + |comma| + 1));
  }

  lemma Regroup4(name: string, value: string, comma: string, rest: string)
    ensures name + (":" + (value + (comma + rest))) == ("" + (name + (":" + ("" + (value + (comma + "")))))) + rest
  {
  }

  /** Minifying the formatted print of any tree gives its unformatted print, and that print
      leaves no literal and no comment open. */
  lemma MinifyIsUnformatted(t: Json)
    requires Printable(t)
    ensures Minified(Text(t, 0, true), 0) == Text(t, 0, false)
    ensures Closed(Text(t, 0, true), 0)
  {
    var s := Text(t, 0, true);
    ReadsWhole(s);
    ValueMinifies(s, 0, t, 0);
    assert Minified(s, |s|) == "";
    assert Text(t, 0, false) + "" == Text(t, 0, false);
  }

  // ---- the minifier as the code runs it

  /** What the block holds at first: the text, its terminator and, should the text leave a
      literal or a comment open, two more of them, since the code then steps over the first. */
  ghost predicate Block(w: string, s: string) {
    |w| > |s| && NulFree(s) && w[..|s|] == s && w[|s|] == NUL && (Closed(s, 0) || Spare(w, s))
  }

  ghost predicate Spare(w: string, s: string) {
    |w| >= |s| + 3 && w[|s| + 1] == w[|s| + 2] == NUL
  }

  /** Where a cursor may stand. */
  ghost predicate Reach(w: string, s: string, i: nat) {
    i <= |s| || (Spare(w, s) && i <= |s| + 2)
  }

  /** The two cursors of the minifier: `into` never overtakes `json`, and everything from
      `json` on is still what was there at the start. */
  ghost predicate Between(a: array<char>, w: string, s: string, json: nat, into: nat)
    reads a
  {
    && |w| > |s| && NulFree(s) && w[..|s|] == s && w[|s|] == NUL
    && a.Length == |w| && into <= json && Reach(w, s, json)
    && forall k :: json <= k < |w| ==> a[k] == w[k]
  }

  lemma ReadsText(a: array<char>, w: string, s: string, json: nat, into: nat, i: nat)
    requires Between(a, w, s, json, into) && json <= i && Reach(w, s, i)
    ensures i < a.Length && a[i] == At(s, i)
  {
    if i < |s| { assert w[i] == w[..|s|][i]; }
  }

  lemma Nearer(w: string, s: string, i: nat)
    requires Reach(w, s, i)
    ensures forall k :: 0 <= k <= i ==> Reach(w, s, k)
  {
  }

  method CopyChar(a: array<char>, ghost w: string, ghost s: string, json: nat, into: nat) returns (json': nat, into': nat)
    requires Between(a, w, s, json, into) && Reach(w, s, json + 1)
    modifies a
    ensures json' == json + 1 && into' == into + 1 && Between(a, w, s, json', into')
    ensures a[..into'] == old(a[..into]) + [At(s, json)]
  {
    ReadsText(a, w, s, json, into, json);
    a[into] := a[json];
    json', into' := json + 1, into + 1;
  }

  lemma CopyJoin(s: string, a: nat, b: nat, c: nat)
    requires a <= b <= c
    ensures Copy(s, a, a) == ""
    ensures Copy(s, a, c) == Copy(s, a, b) + Copy(s, b, c)
    ensures b + 1 == c ==> Copy(s, b, c) == [At(s, b)]
    ensures b + 2 == c ==> Copy(s, b, c) == [At(s, b), At(s, b + 1)]
  {
  }

  /** One character of a literal, together with the backslash that protects it. */
  method CopyProtected(a: array<char>, ghost w: string, ghost s: string, json: nat, into: nat) returns (json': nat, into': nat)
    requires Between(a, w, s, json, into) && json < |s|
    requires Reach(w, s, if At(s, json) == '\\' then json + 2 else json + 1)
    modifies a
    ensures json' == (if At(s, json) == '\\' then json + 2 else json + 1) && Between(a, w, s, json', into')
    ensures a[..into'] == old(a[..into]) + Copy(s, json, json')
  {
    ReadsText(a, w, s, json, into, json);
    json', into' := json, into;
    if a[json] == '\\' { json', into' := CopyChar(a, w, s, json', into'); }
    json', into' := CopyChar(a, w, s, json', into');
    CopyJoin(s, json, json, json');
  }

  lemma LiteralStep(s: string, i: nat)
    ensures if At(s, i) == NUL || At(s, i) == '"' then LiteralEnd(s, i) == i
            else LiteralEnd(s, i) == LiteralEnd(s, if At(s, i) == '\\' then i + 2 else i + 1)
  {
  }

  /** The characters of a literal up to the one that closes it. */
  method CopyBody(a: array<char>, ghost w: string, ghost s: string, json: nat, into: nat) returns (json': nat, into': nat)
    requires Between(a, w, s, json, into) && Reach(w, s, LiteralEnd(s, json))
    modifies a
    ensures json' == LiteralEnd(s, json) && Between(a, w, s, json', into')
    ensures a[..into'] == old(a[..into]) + Copy(s, json, json')
  {
    hide Copy, LiteralEnd, Reach;
    ghost var end := LiteralEnd(s, json);
    Nearer(w, s, end);
    json', into' := json, into;
    ReadsText(a, w, s, json', into', json');
    CopyJoin(s, json, json, json);
    while a[json'] != NUL && a[json'] != '"'
      invariant json <= json' <= end == LiteralEnd(s, json') && Between(a, w, s, json', into')
      invariant json' < a.Length && a[json'] == At(s, json')
      invariant a[..into'] == old(a[..into]) + Copy(s, json, json')
      decreases end - json'
    {
      ghost var from := json';
      LiteralStep(s, json');
      json', into' := CopyProtected(a, w, s, json', into');
      CopyJoin(s, json, from, json');
      ReadsText(a, w, s, json', into', json');
    }
    LiteralStep(s, json');
  }

  method CopyLiteral(a: array<char>, ghost w: string, ghost s: string, json: nat, into: nat) returns (json': nat, into': nat)
    requires Between(a, w, s, json, into) && json < |s| && Reach(w, s, LiteralEnd(s, json + 1) + 1)
    modifies a
    ensures json' == LiteralEnd(s, json + 1) + 1 && Between(a, w, s, json', into')
    ensures a[..into'] == old(a[..into]) + Copy(s, json, json')
  {
    hide Copy, LiteralEnd, Reach;
    ghost var end := LiteralEnd(s, json + 1);
    Nearer(w, s, end + 1);
    CopyJoin(s, json, json, json + 1);
    CopyJoin(s, json, json + 1, end);
    CopyJoin(s, json, end, end + 1);
    json', into' := CopyChar(a, w, s, json, into);
    json', into' := CopyBody(a, w, s, json', into');
    json', into' := CopyChar(a, w, s, json', into');
  }

  lemma MinifiedStep(s: string, i: nat)
    requires At(s, i) != NUL
    ensures var c, d := At(s, i), At(s, i + 1);
      && (IsSpace(c) ==> Minified(s, i) == Minified(s, i + 1))
      && (c == '/' && d == '/' ==> Minified(s, i) == Minified(s, LineEnd(s, i)))
      && (c == '/' && d == '*' ==> Minified(s, i) == Minified(s, CommentEnd(s, i) + 2))
      && (c == '"' ==>
            Minified(s, i) == Copy(s, i, LiteralEnd(s, i + 1) + 1) + Minified(s, LiteralEnd(s, i + 1) + 1))
      && (!IsSpace(c) && !(c == '/' && (d == '/' || d == '*')) && c != '"' ==>
            Minified(s, i) == [c] + Minified(s, i + 1))
  {
    hide LiteralEnd, LineEnd, CommentEnd, Copy;
  }

  /** A literal or a comment that starts in a closed text ends inside it, and what follows is
      closed. */
  lemma ClosedStep(s: string, i: nat)
    requires i < |s| && At(s, i) != NUL && Closed(s, i)
    ensures var c, d := At(s, i), At(s, i + 1);
      if c == '/' && d == '/' then Closed(s, LineEnd(s, i))
      else if c == '/' && d == '*' then CommentEnd(s, i) + 2 <= |s| && Closed(s, CommentEnd(s, i) + 2)
      else if c == '"' then LiteralEnd(s, i + 1) + 1 <= |s| && Closed(s, LiteralEnd(s, i + 1) + 1)
      else Closed(s, i + 1)
  {
    CommentEnds(s, i);
    hide LiteralEnd, LineEnd, CommentEnd;
  }

  lemma {:induction false} CommentEnds(s: string, i: nat)
    ensures var e := CommentEnd(s, i); At(s, e) == NUL || (At(s, e) == '*' && At(s, e + 1) == '/')
    ensures i <= |s| ==> CommentEnd(s, i) <= |s|
    decreases |s| - i
  {
    if At(s, i) != NUL && !(At(s, i) == '*' && At(s, i + 1) == '/') { CommentEnds(s, i + 1); }
  }

  lemma {:induction false} LiteralEnds(s: string, i: nat)
    requires i <= |s| + 1
    ensures LiteralEnd(s, i) <= |s| + 1
    decreases |s| - i
  {
    if At(s, i) != NUL && At(s, i) != '"' {
      if At(s, i) == '\\' { LiteralEnds(s, i + 2); } else { LiteralEnds(s, i + 1); }
    }
  }

  /** The ends that the code steps to can be reached. */
  lemma StepReaches(w: string, s: string, i: nat)
    requires i < |s| && At(s, i) != NUL && (Closed(s, i) || Spare(w, s))
    ensures At(s, i) == '"' ==> Reach(w, s, LiteralEnd(s, i + 1) + 1)
    ensures At(s, i) == '/' && At(s, i + 1) == '*' ==> Reach(w, s, CommentEnd(s, i) + 2)
  {
    CommentEnds(s, i);
    LiteralEnds(s, i + 1);
    hide LiteralEnd, LineEnd, CommentEnd, Closed;
    if Closed(s, i) { ClosedStep(s, i); }
  }

  /** One turn of the main loop. */
  method Advance(a: array<char>, ghost w: string, ghost s: string, json: nat, into: nat) returns (json': nat, into': nat)
    requires Between(a, w, s, json, into) && json < |s| && (Closed(s, json) || Spare(w, s))
    modifies a
    ensures json' > json && Between(a, w, s, json', into') && (Closed(s, json') || Spare(w, s))
    ensures a[..into'] + Minified(s, json') == old(a[..into]) + Minified(s, json)
  {
    hide LiteralEnd, LineEnd, CommentEnd, Copy, Minified, Closed;
    assert At(s, json) != NUL;
    MinifiedStep(s, json);
    StepReaches(w, s, json);
    if Closed(s, json) { ClosedStep(s, json); }
    ReadsText(a, w, s, json, into, json);
    ReadsText(a, w, s, json, into, json + 1);
    json', into' := json, into;
    var c, d := a[json], a[json + 1];
    if IsSpace(c) {
      json' := json + 1;
    } else if c == '/' && d == '/' {
      json' := PastLine(a, w, s, json, into);
    } else if c == '/' && d == '*' {
      json' := PastComment(a, w, s, json, into);
    } else if c == '"' {
      json', into' := CopyLiteral(a, w, s, json, into);
    } else {
      json', into' := CopyChar(a, w, s, json, into);
    }
  }

  /** The whole minifier, in the block of the text and its terminator.  Only where a literal or
      a comment is left open, it needs two further terminators behind. */
  method MinifyInPlace(a: array<char>, ghost s: string) returns (into: nat)
    requires Block(a[..], s)
    modifies a
    ensures into <= |s| + 2 && into < a.Length && a[into] == NUL && a[..into] == Minified(s, 0)
    ensures forall t :: Printable(t) && s == Text(t, 0, true) ==> a[..into] == Text(t, 0, false)
  {
    ghost var w := a[..];
    var json := 0;
    into := 0;
    ReadsText(a, w, s, json, into, json);
    while a[json] != NUL
      invariant Between(a, w, s, json, into) && json < a.Length && a[json] == At(s, json)
      invariant Closed(s, json) || Spare(w, s)
      invariant a[..into] + Minified(s, json) == Minified(s, 0)
      decreases |s| - json
    {
      hide Minified, Closed;
      json, into := Advance(a, w, s, json, into);
      ReadsText(a, w, s, json, into, json);
    }
    assert Minified(s, json) == "";
    hide Minified;
    a[into] := NUL;
    forall t | Printable(t) && s == Text(t, 0, true) ensures Minified(s, 0) == Text(t, 0, false) {
      MinifyIsUnformatted(t);
    }
  }

  /** The block of a formatted print, just large enough for it and its terminator, is minified
      to the unformatted print. */
  method MinifyPrinted(a: array<char>, ghost t: Json) returns (into: nat)
    requires Printable(t) && a[..] == Text(t, 0, true) + [NUL]
    modifies a
    ensures into < a.Length && a[into] == NUL && a[..into] == Text(t, 0, false)
  {
    JsonPrinter.TextNulFree(t, 0, true);
    MinifyIsUnformatted(t);
    into := MinifyInPlace(a, Text(t, 0, true));
  }

  method PastLine(a: array<char>, ghost w: string, ghost s: string, json: nat, ghost into: nat) returns (j: nat)
    requires Between(a, w, s, json, into) && json < |s| && At(s, json) == '/'
    ensures json < j <= |s| && j == LineEnd(s, json)
  {
    j := json;
    ReadsText(a, w, s, json, into, j);
    while a[j] != NUL && a[j] != '\n'
      invariant json <= j <= |s| && LineEnd(s, json) == LineEnd(s, j)
      invariant j < a.Length && a[j] == At(s, j)
      decreases |s| - j
    {
      j := j + 1;
      ReadsText(a, w, s, json, into, j);
    }
  }

  method PastComment(a: array<char>, ghost w: string, ghost s: string, json: nat, ghost into: nat) returns (j: nat)
    requires Between(a, w, s, json, into) && json < |s|
    ensures json < j && j == CommentEnd(s, json) + 2
  {
    j := json;
    ReadsText(a, w, s, json, into, j);
    ReadsText(a, w, s, json, into, j + 1);
    while a[j] != NUL && !(a[j] == '*' && a[j + 1] == '/')
      invariant json <= j <= |s| && CommentEnd(s, json) == CommentEnd(s, j)
      invariant j < a.Length && a[j] == At(s, j) && (j < |s| ==> j + 1 < a.Length && a[j + 1] == At(s, j + 1))
      decreases |s| - j
    {
      j := j + 1;
      ReadsText(a, w, s, json, into, j);
      if j < |s| { ReadsText(a, w, s, json, into, j + 1); }
    }
    j := j + 2;
  }
}
