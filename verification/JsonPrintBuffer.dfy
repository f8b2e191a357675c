/** The growing-buffer printer.  Every piece of text asks for space first; when the buffer is
    too small it is copied into one of the next power of two. */
module JsonPrintBuffer {
  import opened Registers
  import opened Json
  import opened JsonPrinter

  // ---- the size of the next buffer

  /** The bit trick: smear the highest bit of `x - 1` downwards and add one.  It gives the
      least power of two that is at least `x`, as long as that is an `int`. */
  function Pow2gt(x: bv32): (p: bv32)
    ensures 1 <= x <= 0x4000_0000 ==> p & (p - 1) == 0 && x <= p <= 0x4000_0000
    ensures 1 < x <= 0x4000_0000 ==> p >> 1 < x
  {
    var a := x - 1;
    var b := a | (a >> 1);
    var c := b | (b >> 2);
    var d := c | (c >> 4);
    var e := d | (d >> 8);
    (e | (e >> 16)) + 1
  }

  /** The same size as an integer. */
  function PowerAbove(x: nat, from: nat): (p: nat)
    requires from >= 1 && (from == 1 || from < 2 * x)
    ensures p >= x && (p == 1 || p < 2 * x)
    decreases x - from
  {
    if from >= x then from else PowerAbove(x, 2 * from)
  }

  /** Doubling stops at the power of two that first reaches `x`. */
  lemma {:induction false} PowerReached(x: nat, from: nat, p: nat, k: nat)
    requires from >= 1 && p == from * Pow2(k) && p >= x && (k == 0 || p < 2 * x)
    requires from == 1 || from < 2 * x
    ensures PowerAbove(x, from) == p
    decreases k
  {
    if k > 0 {
      var q := Pow2(k - 1);
      Doubled(from, q);
      PowerReached(x, 2 * from, p, k - 1);
    }
  }

  lemma Doubled(from: nat, q: nat)
    requires from >= 1 && q >= 1
    ensures from * (2 * q) == 2 * from * q >= 2 * from
  {
    assert 2 * from * q == 2 * from + 2 * from * (q - 1);
    assert 2 * from * (q - 1) >= 0;
  }

  lemma Powers(k: nat)
    requires k <= 10
    ensures Pow2(k) == [1, 2, 4, 8, 16, 32, 64, 128, 256, 512, 1024][k]
    ensures Pow2(10 + k) == 1024 * Pow2(k) && Pow2(20 + k) == 0x10_0000 * Pow2(k)
  {
    assert Pow2(10) == 1024;
    Pow2Add(10, 10);
    Pow2Add(10, k);
    Pow2Add(20, k);
    if k > 0 { Powers(k - 1); }
  }

  lemma Bits0To3(x: bv32)
    ensures 0x0 < x <= 0x1 ==> Pow2gt(x) == 0x1
    ensures 0x1 < x <= 0x2 ==> Pow2gt(x) == 0x2
    ensures 0x2 < x <= 0x4 ==> Pow2gt(x) == 0x4
    ensures 0x4 < x <= 0x8 ==> Pow2gt(x) == 0x8
  {
  }

  lemma Bounds0To3(x: bv32)
    ensures x <= 0x1 <==> x as nat <= 0x1
    ensures x <= 0x2 <==> x as nat <= 0x2
    ensures x <= 0x4 <==> x as nat <= 0x4
    ensures x <= 0x8 <==> x as nat <= 0x8
  {
  }

  lemma Bits4To7(x: bv32)
    ensures 0x8 < x <= 0x10 ==> Pow2gt(x) == 0x10
    ensures 0x10 < x <= 0x20 ==> Pow2gt(x) == 0x20
    ensures 0x20 < x <= 0x40 ==> Pow2gt(x) == 0x40
    ensures 0x40 < x <= 0x80 ==> Pow2gt(x) == 0x80
  {
  }

  lemma Bounds4To7(x: bv32)
    ensures x <= 0x8 <==> x as nat <= 0x8
    ensures x <= 0x10 <==> x as nat <= 0x10
    ensures x <= 0x20 <==> x as nat <= 0x20
    ensures x <= 0x40 <==> x as nat <= 0x40
    ensures x <= 0x80 <==> x as nat <= 0x80
  {
  }

  lemma Bits8To11(x: bv32)
    ensures 0x80 < x <= 0x100 ==> Pow2gt(x) == 0x100
    ensures 0x100 < x <= 0x200 ==> Pow2gt(x) == 0x200
    ensures 0x200 < x <= 0x400 ==> Pow2gt(x) == 0x400
    ensures 0x400 < x <= 0x800 ==> Pow2gt(x) == 0x800
  {
  }

  lemma Bounds8To11(x: bv32)
    ensures x <= 0x80 <==> x as nat <= 0x80
    ensures x <= 0x100 <==> x as nat <= 0x100
    ensures x <= 0x200 <==> x as nat <= 0x200
    ensures x <= 0x400 <==> x as nat <= 0x400
    ensures x <= 0x800 <==> x as nat <= 0x800
  {
  }

  lemma Bits12To15(x: bv32)
    ensures 0x800 < x <= 0x1000 ==> Pow2gt(x) == 0x1000
    ensures 0x1000 < x <= 0x2000 ==> Pow2gt(x) == 0x2000
    ensures 0x2000 < x <= 0x4000 ==> Pow2gt(x) == 0x4000
    ensures 0x4000 < x <= 0x8000 ==> Pow2gt(x) == 0x8000
  {
  }

  lemma Bounds12To15(x: bv32)
    ensures x <= 0x800 <==> x as nat <= 0x800
    ensures x <= 0x1000 <==> x as nat <= 0x1000
    ensures x <= 0x2000 <==> x as nat <= 0x2000
    ensures x <= 0x4000 <==> x as nat <= 0x4000
    ensures x <= 0x8000 <==> x as nat <= 0x8000
  {
  }

  lemma Bits16To19(x: bv32)
    ensures 0x8000 < x <= 0x10000 ==> Pow2gt(x) == 0x10000
    ensures 0x10000 < x <= 0x20000 ==> Pow2gt(x) == 0x20000
    ensures 0x20000 < x <= 0x40000 ==> Pow2gt(x) == 0x40000
    ensures 0x40000 < x <= 0x80000 ==> Pow2gt(x) == 0x80000
  {
  }

  lemma Bounds16To19(x: bv32)
    ensures x <= 0x8000 <==> x as nat <= 0x8000
    ensures x <= 0x10000 <==> x as nat <= 0x10000
    ensures x <= 0x20000 <==> x as nat <= 0x20000
    ensures x <= 0x40000 <==> x as nat <= 0x40000
    ensures x <= 0x80000 <==> x as nat <= 0x80000
  {
  }

  lemma Bits20To23(x: bv32)
    ensures 0x80000 < x <= 0x100000 ==> Pow2gt(x) == 0x100000
    ensures 0x100000 < x <= 0x200000 ==> Pow2gt(x) == 0x200000
    ensures 0x200000 < x <= 0x400000 ==> Pow2gt(x) == 0x400000
    ensures 0x400000 < x <= 0x800000 ==> Pow2gt(x) == 0x800000
  {
  }

  lemma Bounds20To23(x: bv32)
    ensures x <= 0x80000 <==> x as nat <= 0x80000
    ensures x <= 0x100000 <==> x as nat <= 0x100000
    ensures x <= 0x200000 <==> x as nat <= 0x200000
    ensures x <= 0x400000 <==> x as nat <= 0x400000
    ensures x <= 0x800000 <==> x as nat <= 0x800000
  {
  }

  lemma Bits24To27(x: bv32)
    ensures 0x800000 < x <= 0x1000000 ==> Pow2gt(x) == 0x1000000
    ensures 0x1000000 < x <= 0x2000000 ==> Pow2gt(x) == 0x2000000
    ensures 0x2000000 < x <= 0x4000000 ==> Pow2gt(x) == 0x4000000
    ensures 0x4000000 < x <= 0x8000000 ==> Pow2gt(x) == 0x8000000
  {
  }

  lemma Bounds24To27(x: bv32)
    ensures x <= 0x800000 <==> x as nat <= 0x800000
    ensures x <= 0x1000000 <==> x as nat <= 0x1000000
    ensures x <= 0x2000000 <==> x as nat <= 0x2000000
    ensures x <= 0x4000000 <==> x as nat <= 0x4000000
    ensures x <= 0x8000000 <==> x as nat <= 0x8000000
  {
  }

  lemma Bits28To30(x: bv32)
    ensures 0x8000000 < x <= 0x10000000 ==> Pow2gt(x) == 0x10000000
    ensures 0x10000000 < x <= 0x20000000 ==> Pow2gt(x) == 0x20000000
    ensures 0x20000000 < x <= 0x40000000 ==> Pow2gt(x) == 0x40000000
  {
  }

  lemma Bounds28To30(x: bv32)
    ensures x <= 0x8000000 <==> x as nat <= 0x8000000
    ensures x <= 0x10000000 <==> x as nat <= 0x10000000
    ensures x <= 0x20000000 <==> x as nat <= 0x20000000
    ensures x <= 0x40000000 <==> x as nat <= 0x40000000
  {
  }

  lemma SameSize0To3(x: bv32)
    requires 0x0 < x <= 0x8
    ensures PowerAbove(x as nat, 1) == Pow2gt(x) as nat
  {
    hide PowerAbove, Pow2, Pow2gt;
    Bits0To3(x);
    Bounds0To3(x);
    if x <= 0x1 { Powers(0); PowerReached(x as nat, 1, 0x1, 0); }
    else if x <= 0x2 { Powers(1); PowerReached(x as nat, 1, 0x2, 1); }
    else if x <= 0x4 { Powers(2); PowerReached(x as nat, 1, 0x4, 2); }
    else { Powers(3); PowerReached(x as nat, 1, 0x8, 3); }
  }

  lemma SameSize4To7(x: bv32)
    requires 0x8 < x <= 0x80
    ensures PowerAbove(x as nat, 1) == Pow2gt(x) as nat
  {
    hide PowerAbove, Pow2, Pow2gt;
    Bits4To7(x);
    Bounds4To7(x);
    if x <= 0x10 { Powers(4); PowerReached(x as nat, 1, 0x10, 4); }
    else if x <= 0x20 { Powers(5); PowerReached(x as nat, 1, 0x20, 5); }
    else if x <= 0x40 { Powers(6); PowerReached(x as nat, 1, 0x40, 6); }
    else { Powers(7); PowerReached(x as nat, 1, 0x80, 7); }
  }

  lemma SameSize8To11(x: bv32)
    requires 0x80 < x <= 0x800
    ensures PowerAbove(x as nat, 1) == Pow2gt(x) as nat
  {
    hide PowerAbove, Pow2, Pow2gt;
    Bits8To11(x);
    Bounds8To11(x);
    if x <= 0x100 { Powers(8); PowerReached(x as nat, 1, 0x100, 8); }
    else if x <= 0x200 { Powers(9); PowerReached(x as nat, 1, 0x200, 9); }
    else if x <= 0x400 { Powers(10); PowerReached(x as nat, 1, 0x400, 10); }
    else { Powers(1); PowerReached(x as nat, 1, 0x800, 11); }
  }

  lemma SameSize12To15(x: bv32)
    requires 0x800 < x <= 0x8000
    ensures PowerAbove(x as nat, 1) == Pow2gt(x) as nat
  {
    hide PowerAbove, Pow2, Pow2gt;
    Bits12To15(x);
    Bounds12To15(x);
    if x <= 0x1000 { Powers(2); PowerReached(x as nat, 1, 0x1000, 12); }
    else if x <= 0x2000 { Powers(3); PowerReached(x as nat, 1, 0x2000, 13); }
    else if x <= 0x4000 { Powers(4); PowerReached(x as nat, 1, 0x4000, 14); }
    else { Powers(5); PowerReached(x as nat, 1, 0x8000, 15); }
  }

  lemma SameSize16To19(x: bv32)
    requires 0x8000 < x <= 0x80000
    ensures PowerAbove(x as nat, 1) == Pow2gt(x) as nat
  {
    hide PowerAbove, Pow2, Pow2gt;
    Bits16To19(x);
    Bounds16To19(x);
    if x <= 0x10000 { Powers(6); PowerReached(x as nat, 1, 0x10000, 16); }
    else if x <= 0x20000 { Powers(7); PowerReached(x as nat, 1, 0x20000, 17); }
    else if x <= 0x40000 { Powers(8); PowerReached(x as nat, 1, 0x40000, 18); }
    else { Powers(9); PowerReached(x as nat, 1, 0x80000, 19); }
  }

  lemma SameSize20To23(x: bv32)
    requires 0x80000 < x <= 0x800000
    ensures PowerAbove(x as nat, 1) == Pow2gt(x) as nat
  {
    hide PowerAbove, Pow2, Pow2gt;
    Bits20To23(x);
    Bounds20To23(x);
    if x <= 0x100000 { Powers(10); PowerReached(x as nat, 1, 0x100000, 20); }
    else if x <= 0x200000 { Powers(1); PowerReached(x as nat, 1, 0x200000, 21); }
    else if x <= 0x400000 { Powers(2); PowerReached(x as nat, 1, 0x400000, 22); }
    else { Powers(3); PowerReached(x as nat, 1, 0x800000, 23); }
  }

  lemma SameSize24To27(x: bv32)
    requires 0x800000 < x <= 0x8000000
    ensures PowerAbove(x as nat, 1) == Pow2gt(x) as nat
  {
    hide PowerAbove, Pow2, Pow2gt;
    Bits24To27(x);
    Bounds24To27(x);
    if x <= 0x1000000 { Powers(4); PowerReached(x as nat, 1, 0x1000000, 24); }
    else if x <= 0x2000000 { Powers(5); PowerReached(x as nat, 1, 0x2000000, 25); }
    else if x <= 0x4000000 { Powers(6); PowerReached(x as nat, 1, 0x4000000, 26); }
    else { Powers(7); PowerReached(x as nat, 1, 0x8000000, 27); }
  }

  lemma SameSize28To30(x: bv32)
    requires 0x8000000 < x <= 0x40000000
    ensures PowerAbove(x as nat, 1) == Pow2gt(x) as nat
  {
    hide PowerAbove, Pow2, Pow2gt;
    Bits28To30(x);
    Bounds28To30(x);
    if x <= 0x10000000 { Powers(8); PowerReached(x as nat, 1, 0x10000000, 28); }
    else if x <= 0x20000000 { Powers(9); PowerReached(x as nat, 1, 0x20000000, 29); }
    else { Powers(10); PowerReached(x as nat, 1, 0x40000000, 30); }
  }

  /** The size the buffer grows to, `PowerAbove`, is what the bit trick computes. */
  lemma SameSize(x: bv32)
    requires 1 <= x <= 0x4000_0000
    ensures PowerAbove(x as nat, 1) == Pow2gt(x) as nat
  {
    hide PowerAbove, Pow2gt;
    if x <= 0x8 { SameSize0To3(x); }
    else if x <= 0x80 { SameSize4To7(x); }
    else if x <= 0x800 { SameSize8To11(x); }
    else if x <= 0x8000 { SameSize12To15(x); }
    else if x <= 0x80000 { SameSize16To19(x); }
    else if x <= 0x800000 { SameSize20To23(x); }
    else if x <= 0x8000000 { SameSize24To27(x); }
    else { SameSize28To30(x); }
  }

  const LARGEST_INT_POWER: nat := 0x4000_0000

  class PrintBuffer {
    var buffer: array?<char>
    var length: nat
    var offset: nat

    /** The largest block the allocator grants.  No request above 2^30 can be met: the next
        power of two is no `int`. */
    const heap: nat

    ghost predicate Valid()
      reads this
    {
      heap <= LARGEST_INT_POWER && (buffer != null ==> length == buffer.Length)
    }

    /** The buffer is lost, or it begins with `done` and the next text goes after that. */
    ghost predicate Ready(done: string)
      reads this, buffer
    {
      Valid() && (buffer != null ==> Begins(buffer, done) && offset == |done|)
    }

    /** The buffer begins with the C string `done`, and the offset is somewhere inside it. */
    ghost predicate Printed(start: nat, done: string)
      reads this, buffer
    {
      Valid() && buffer != null && Renders(buffer, done) && start <= offset <= |done|
    }

    constructor (prebuffer: nat, heap: nat)
      requires heap <= LARGEST_INT_POWER
      ensures Ready("") && this.heap == heap && (buffer != null <==> prebuffer <= heap)
      ensures buffer != null ==> fresh(buffer)
    {
      if prebuffer <= heap { buffer := new char[prebuffer]; } else { buffer := null; }
      length := prebuffer;
      offset := 0;
      this.heap := heap;
    }

    /** Makes room for `needed` more characters, or loses the buffer. */
    method Ensure(needed: nat, ghost done: string) returns (ok: bool)
      requires Ready(done)
      modifies this
      ensures Ready(done) && ok == (buffer != null)
      ensures ok ==> offset + needed <= buffer.Length && (buffer == old(buffer) || fresh(buffer))
      ensures old(buffer) != null && 2 * (|done| + needed) <= heap ==> ok
      ensures ok ==> old(buffer) != null
    {
      if buffer == null { return false; }
      var total := needed + offset;
      if total <= length { return true; }
      var newsize := PowerAbove(total, 1);
      if newsize > heap {
        buffer, length := null, 0;
        return false;
      }
      var newbuffer := new char[newsize];
      forall i | 0 <= i < length { newbuffer[i] := buffer[i]; }
      assert newbuffer[..|done|] == buffer[..|done|];
      buffer, length := newbuffer, newsize;
      return true;
    }

    /** Asks for `needed` characters, stores `text` there and moves the offset past it; a
        terminator may follow. */
    method Put(needed: nat, text: string, terminated: bool, ghost done: string) returns (ok: bool)
      requires Ready(done) && |text| + (if terminated then 1 else 0) <= needed
      modifies this, buffer
      ensures Ready(done + text) && ok == (buffer != null)
      ensures ok ==> buffer == old(buffer) || fresh(buffer)
      ensures old(buffer) != null && 2 * (|done| + needed) <= heap ==> ok
      ensures ok ==> old(buffer) != null
    {
      ok := Ensure(needed, done);
      if ok {
        if terminated {
          WriteTerminated(buffer, offset, done, text);
        } else {
          WriteText(buffer, offset, done, text);
        }
        offset := offset + |text|;
      }
    }

    /** The last piece of a value: stored and terminated, but left for the caller to step over. */
    method PutLast(needed: nat, text: string, ghost done: string, ghost start: nat) returns (ok: bool)
      requires Ready(done) && |text| < needed && NulFree(done + text) && start <= |done|
      modifies this, buffer
      ensures Valid() && ok == (buffer != null)
      ensures ok ==> Printed(start, done + text) && (buffer == old(buffer) || fresh(buffer))
      ensures old(buffer) != null && 2 * (|done| + needed) <= heap ==> ok
      ensures ok ==> old(buffer) != null
    {
      ok := Ensure(needed, done);
      if ok { WriteTerminated(buffer, offset, done, text); }
    }

    /** Moves the offset to the end of the C string it stands in. */
    method Update(ghost start: nat, ghost done: string)
      requires Valid() && (buffer != null ==> Printed(start, done))
      modifies this`offset
      ensures Ready(done)
    {
      if buffer == null {
        offset := 0;
        return;
      }
      assert forall k :: 0 <= k < |done| ==> buffer[k] == buffer[..|done|][k];
      while buffer[offset] != NUL
        invariant Printed(start, done)
        decreases |done| - offset
      {
        offset := offset + 1;
      }
    }

    method PrintString(str: string, ghost done: string) returns (ok: bool)
      requires Ready(done) && NulFree(str) && NulFree(done)
      modifies this, buffer
      ensures Valid() && ok == (buffer != null)
      ensures ok ==> Printed(|done|, done + StringText(str)) && (buffer == old(buffer) || fresh(buffer))
      ensures old(buffer) != null && 2 * (|done| + |StringText(str)| + 1) <= heap ==> ok
      ensures ok ==> old(buffer) != null
    {
      hide StringText;
      NameNulFree(str);
      JoinNulFree(done, StringText(str));
      var space := StringSpace(str);
      ok := Ensure(space, done);
      if ok { WriteString(buffer, offset, done, str); }
    }

    /** What printing a value does to the buffer: on success it begins with the text printed
        before and then the value's text, and it succeeds when the allocator can double the
        space that takes. */
    twostate predicate Printing(done: string, text: string, ok: bool)
      reads this, buffer
    {
      && Valid() && ok == (buffer != null)
      && (ok ==> old(buffer) != null && Printed(|done|, done + text) && (buffer == old(buffer) || fresh(buffer)))
      && (old(buffer) != null && 2 * (|done| + |text| + 21) <= heap ==> ok)
    }

    method PrintItem(t: Json, depth: nat, fmt: bool, ghost done: string) returns (ok: bool, start: nat)
      requires Ready(done) && Printable(t) && NulFree(done)
      modifies this, buffer
      ensures Printing(done, Text(t, depth, fmt), ok)
      ensures ok && depth == 0 && done == "" ==> start == 0
      decreases t, 1
    {
      start := offset;
      TextNulFree(t, depth, fmt);
      JoinNulFree(done, Text(t, depth, fmt));
      match t
      case Null => ok := PutLast(5, "null", done, |done|);
      case False => ok := PutLast(6, "false", done, |done|);
      case True => ok := PutLast(5, "true", done, |done|);
      case Number(n) =>
        IntTextShort(n);
        if n == 0 { ok := PutLast(2, "0", done, |done|); } else { ok := PutLast(21, IntText(n), done, |done|); }
      case String(s) => ok := PrintString(s, done);
      case Array(items) => ok := PrintArray(items, depth, fmt, done);
      case Object(members) => ok, start := PrintObject(members, depth, fmt, done);
    }

    method PrintArray(items: seq<Json>, depth: nat, fmt: bool, ghost done: string) returns (ok: bool)
      requires Ready(done) && Printable(Array(items)) && NulFree(done + Text(Array(items), depth, fmt))
      modifies this, buffer
      ensures Printing(done, Text(Array(items), depth, fmt), ok)
      decreases items, 3
    {
      ghost var text := ItemsText(items, depth + 1, fmt);
      assert Text(Array(items), depth, fmt) == "[" + (text + "]");
      hide Text, NulFree, Begins, Renders;
      if items == [] {
        assert "[" + ("" + "]") == "[]";
        ok := PutLast(3, "[]", done, |done|);
        return;
      }
      hide ItemsText;
      assert done + ("[" + (text + "]")) == done + "[" + (text + "]") == done + "[" + text + "]";
      ok := Put(1, "[", false, done);
      if !ok { return; }
      PrintItems(items, depth + 1, fmt, done + "[");
      ok := PutLast(2, "]", done + "[" + text, |done|);
    }

    /** The items; when one of them loses the buffer, what follows finds it lost. */
    method PrintItems(items: seq<Json>, depth: nat, fmt: bool, ghost done: string)
      requires Ready(done) && Printable(Array(items)) && NulFree(done + (ItemsText(items, depth, fmt) + "]"))
      modifies this, buffer
      ensures Ready(done + ItemsText(items, depth, fmt))
      ensures buffer != null ==> old(buffer) != null && (buffer == old(buffer) || fresh(buffer))
      ensures old(buffer) != null && 2 * (|done| + |ItemsText(items, depth, fmt)| + 22) <= heap ==> buffer != null
      decreases items, 2
    {
      hide Text, NulFree, ItemsText, Begins;
      ghost var full := done + (ItemsText(items, depth, fmt) + "]");
      ghost var cap := buffer != null && 2 * (|full| + 21) <= heap;
      ghost var d := done;
      assert items[0..] == items;
      for i := 0 to |items|
        invariant Ready(d) && (buffer != null ==> old(buffer) != null && (buffer == old(buffer) || fresh(buffer)))
        invariant cap ==> buffer != null
        invariant d + (ItemsText(items[i..], depth, fmt) + "]") == full
      {
        ItemsFirst(items, i, depth, fmt);
        ghost var text, rest := Text(items[i], depth, fmt), ItemsText(items[i + 1..], depth, fmt);
        var sep := When(i + 1 < |items|, "," + When(fmt, " "));
        AdvanceIn(d, text, sep, rest, full);
        PrintElement(items[i], depth, fmt, sep, d);
        if buffer == null { break; }
        d := d + text + sep;
      }
      if buffer != null {
        assert d == done + ItemsText(items, depth, fmt) by {
          NothingLeft(items, depth, fmt);
          SameEnd(d, done + ItemsText(items, depth, fmt), "]", full);
        }
      }
    }

    method PrintElement(t: Json, depth: nat, fmt: bool, sep: string, ghost done: string)
      requires Ready(done) && Printable(t) && NulFree(done) && |sep| <= (if fmt then 2 else 1)
      modifies this, buffer
      ensures Ready(done + Text(t, depth, fmt) + sep)
      ensures buffer != null ==> old(buffer) != null && (buffer == old(buffer) || fresh(buffer))
      ensures old(buffer) != null && 2 * (|done| + |Text(t, depth, fmt)| + 21) <= heap ==> buffer != null
      decreases t, 2
    {
      hide Text, NulFree, Begins, Renders;
      var _, _ := PrintItem(t, depth, fmt, done);
      Update(|done|, done + Text(t, depth, fmt));
      if sep != "" {
        var _ := Put(if fmt then 3 else 2, sep, true, done + Text(t, depth, fmt));
      } else {
        assert done + Text(t, depth, fmt) + sep == done + Text(t, depth, fmt);
      }
    }

    /** One member: indentation, name, colon, value, comma and newline. */
    method PrintMember(m: Member, depth: nat, fmt: bool, more: bool, ghost done: string) returns (ok: bool)
      requires Ready(done) && NulFree(m.name) && Printable(m.value) && NulFree(done + MemberText(m, depth, fmt, more))
      modifies this, buffer
      ensures Ready(done + MemberText(m, depth, fmt, more)) && ok == (buffer != null)
      ensures ok ==> buffer == old(buffer) || fresh(buffer)
      ensures old(buffer) != null && 2 * (|done| + |MemberText(m, depth, fmt, more)| + 21) <= heap ==> ok
      decreases m, 2
    {
      hide Text, NulFree, StringText, Tabs, Begins, Renders;
      ghost var tabs, name, tab := When(fmt, Tabs(depth)), StringText(m.name), When(fmt, "\t");
      ghost var value, comma, nl := Text(m.value, depth, fmt), When(more, ","), When(fmt, "\n");
      MemberPrefixes(done, tabs, name, tab, value, comma + nl);
      ghost var d := done;
      assert done + "" == done;
      if fmt {
        ok := Put(depth, Tabs(depth), false, d);
        if !ok { return; }
      }
      d := d + tabs;
      var _ := PrintString(m.name, d);
      Update(|d|, d + name);
      d := d + name;
      ok := Put(if fmt then 2 else 1, ":" + When(fmt, "\t"), false, d);
      if !ok { return; }
      d := d + (":" + tab);
      var _, _ := PrintItem(m.value, depth, fmt, d);
      Update(|d|, d + value);
      d := d + value;
      ok := Put((if fmt then 1 else 0) + (if more then 1 else 0) + 1, When(more, ",") + When(fmt, "\n"), true, d);
    }

    method PrintObject(members: seq<Member>, depth: nat, fmt: bool, ghost done: string) returns (ok: bool, start: nat)
      requires Ready(done) && Printable(Object(members)) && NulFree(done + Text(Object(members), depth, fmt))
      modifies this, buffer
      ensures Printing(done, Text(Object(members), depth, fmt), ok)
      ensures ok && depth == 0 && done == "" ==> start == 0
      decreases members, 4
    {
      hide Text, Begins, Renders, NulFree;
      start := offset;
      if members == [] {
        EmptyObjectText(depth, fmt);
        ok := PutLast(if fmt then depth + 4 else 3, "{" + (When(fmt, "\n" + Tabs(depth - 1)) + "}"), done, |done|);
      } else {
        ok := PrintFullObject(members, depth, fmt, done);
        // the indentation loop reuses the variable that held the offset of the object
        if fmt { start := depth; }
      }
    }

    method PrintFullObject(members: seq<Member>, depth: nat, fmt: bool, ghost done: string) returns (ok: bool)
      requires Ready(done) && Printable(Object(members)) && NulFree(done + Text(Object(members), depth, fmt))
      requires members != []
      modifies this, buffer
      ensures Printing(done, Text(Object(members), depth, fmt), ok)
      decreases members, 3
    {
      ObjectText(members, depth, fmt);
      ghost var text := MembersText(members, depth + 1, fmt);
      var nl, indent := When(fmt, "\n"), When(fmt, Tabs(depth));
      assert |indent| <= (if fmt then depth else 0) && |nl| <= if fmt then 1 else 0;
      hide Text, NulFree, MembersText, Tabs, When, Begins, Renders;
      var open, close := "{" + nl, indent + "}";
      ObjectPieces(done, nl, text, close);
      ok := Put(if fmt then 3 else 2, open, true, done);
      if !ok { return; }
      ok := PrintMembers(members, depth + 1, fmt, done + open, close);
      if !ok { return; }
      ok := PutLast(if fmt then depth + 2 else 2, close, done + open + text, |done|);
    }

    method PrintMembers(members: seq<Member>, depth: nat, fmt: bool, ghost done: string, ghost close: string) returns (ok: bool)
      requires Ready(done) && Printable(Object(members)) && buffer != null
      requires NulFree(done + (MembersText(members, depth, fmt) + close))
      modifies this, buffer
      ensures Ready(done + MembersText(members, depth, fmt)) && ok == (buffer != null)
      ensures ok ==> buffer == old(buffer) || fresh(buffer)
      ensures 2 * (|done| + |MembersText(members, depth, fmt)| + |close| + 21) <= heap ==> ok
      decreases members, 2
    {
      hide Text, NulFree, MemberText, MembersText, Begins;
      ghost var full := done + (MembersText(members, depth, fmt) + close);
      ghost var d := done;
      assert members[0..] == members;
      for i := 0 to |members|
        invariant Ready(d) && buffer != null && (buffer == old(buffer) || fresh(buffer))
        invariant d + (MembersText(members[i..], depth, fmt) + close) == full
      {
        MembersFirst(members, i, depth, fmt);
        ghost var head := MemberText(members[i], depth, fmt, i + 1 < |members|);
        AdvanceMember(d, head, MembersText(members[i + 1..], depth, fmt), close, full);
        ok := PrintMember(members[i], depth, fmt, i + 1 < |members|, d);
        if !ok { return; }
        d := d + head;
      }
      assert d == done + MembersText(members, depth, fmt) by {
        NoMembersLeft(members, depth, fmt);
        SameEnd(d, done + MembersText(members, depth, fmt), close, full);
      }
      ok := true;
    }
  }

  lemma ObjectPieces(done: string, nl: string, text: string, close: string)
    ensures done + ("{" + (nl + (text + close))) == done + ("{" + nl) + (text + close)
         == done + ("{" + nl) + text + close
  {
  }

  lemma SameEnd(a: string, b: string, close: string, full: string)
    requires a + ("" + close) == full && b + close == full
    ensures a == b
  {
    assert a == full[..|full| - |close|] && b == full[..|full| - |close|];
  }

  lemma AdvanceIn(d: string, text: string, sep: string, rest: string, full: string)
    requires d + ((text + (sep + rest)) + "]") == full && NulFree(full)
    ensures d + text + sep + (rest + "]") == full && |d| + |text| + |sep| < |full|
    ensures NulFree(d) && NulFree(d + text)
  {
    assert full == (d + text) + (sep + rest + "]") && full == d + (text + (sep + rest + "]"));
    JoinNulFree(d + text, sep + rest + "]");
    JoinNulFree(d, text + (sep + rest + "]"));
  }

  lemma AdvanceMember(d: string, head: string, rest: string, close: string, full: string)
    requires d + ((head + rest) + close) == full && NulFree(full)
    ensures d + head + (rest + close) == full && |d| + |head| + |close| <= |full| && NulFree(d + head)
  {
    assert full == (d + head) + (rest + close);
    JoinNulFree(d + head, rest + close);
  }

  lemma MemberPrefixes(done: string, tabs: string, name: string, tab: string, value: string, end: string)
    requires NulFree(done + (tabs + (name + (":" + (tab + (value + end))))))
    ensures done + (tabs + (name + (":" + (tab + (value + end))))) == done + tabs + name + (":" + tab) + value + end
    ensures NulFree(done + tabs) && NulFree(done + tabs + name + (":" + tab))
  {
    var a, b := done + tabs, done + tabs + name + (":" + tab);
    var full := done + (tabs + (name + (":" + (tab + (value + end)))));
    assert full == a + (name + ((":" + tab) + (value + end))) && full == b + (value + end) && full == b + value + end;
    JoinNulFree(a, name + ((":" + tab) + (value + end)));
    JoinNulFree(b, value + end);
  }

  /** Prints a tree through a growing buffer of any starting size.  The result is the text the
      two-pass printer gives, at the start of the buffer; it is there unless the allocator
      refused a block. */
  method PrintBuffered(t: Json, prebuffer: nat, fmt: bool, heap: nat) returns (out: array?<char>, start: nat)
    requires Printable(t) && heap <= LARGEST_INT_POWER
    ensures out != null ==> start == 0 && Renders(out, Text(t, 0, fmt))
    ensures prebuffer <= heap && 2 * (|Text(t, 0, fmt)| + 21) <= heap ==> out != null
  {
    var p := new PrintBuffer(prebuffer, heap);
    var ok;
    ok, start := p.PrintItem(t, 0, fmt, "");
    assert "" + Text(t, 0, fmt) == Text(t, 0, fmt);
    out := if ok then p.buffer else null;
  }

  /** The two printers give the same text. */
  method PrintBothWays(t: Json, prebuffer: nat, fmt: bool, heap: nat) returns (buffered: Option<string>, twoPass: string)
    requires Printable(t) && heap <= LARGEST_INT_POWER
    ensures buffered.Some? ==> buffered.value == twoPass
    ensures twoPass == Text(t, 0, fmt)
    ensures prebuffer <= heap && 2 * (|twoPass| + 21) <= heap ==> buffered.Some?
  {
    var a := PrintValue(t, 0, fmt);
    twoPass := ReadBack(a, Text(t, 0, fmt));
    var b, start := PrintBuffered(t, prebuffer, fmt, heap);
    if b == null {
      buffered := None;
    } else {
      var text := ReadBack(b, Text(t, 0, fmt));
      buffered := Some(text);
    }
  }
}
