/** Masks on two's complement integers of any width. */
module Bits {
  import opened Registers

  /** Bitwise and; negative numbers carry endless sign bits. */
  function And(x: int, m: int): (r: int)
    decreases if m < 0 then -m else m
  {
    if m == 0 then 0
    else if m == -1 then x
    else (if x % 2 == 1 && m % 2 == 1 then 1 else 0) + 2 * And(x / 2, m / 2)
  }

  function Rem(x: int, p: Positive): nat { x % p }

  lemma RemIs(x: int, q: int, r: int, p: Positive)
    requires 0 <= r < p && x == q * p + r
    ensures Rem(x, p) == r
  {
    RemainderUnique(x, q, r, p);
  }

  lemma RemainderOfHalf(x: int, p: Positive)
    ensures Rem(x, 2 * p) == x % 2 + 2 * Rem(x / 2, p)
  {
    var h, q, r := x / 2, x / 2 / p, x / 2 % p;
    assert h == p * q + r;
    assert x == 2 * (p * q) + (2 * r + x % 2);
    assert 2 * (p * q) == q * (2 * p);
    RemIs(x, q, 2 * r + x % 2, 2 * p);
  }

  /** Masking with `2^k - 1` is the remainder by `2^k`, of negative numbers too. */
  lemma {:induction false} MaskIsRemainder(x: int, k: nat)
    ensures And(x, Pow2(k) - 1) == Rem(x, Pow2(k))
    decreases k
  {
    hide Rem;
    if k > 0 {
      var p := Pow2(k - 1);
      MaskIsRemainder(x / 2, k - 1);
      RemainderOfHalf(x, p);
      assert (2 * p - 1) / 2 == p - 1 && (2 * p - 1) % 2 == 1;
    } else {
      RemIs(x, x, 0, 1);
    }
  }

  lemma EvenMask(x: int, m: int)
    ensures And(x, 2 * m) == 2 * And(x / 2, m)
  {
    if m != 0 { assert And(x, 2 * m) == 2 * And(x / 2, 2 * m / 2); }
  }

  lemma PowTwice(k: nat)
    requires k >= 2
    ensures Pow2(k) == 2 * (2 * Pow2(k - 2))
  {
  }

  lemma LowBits(x: int, p: Positive, y: int, z: int)
    requires y == x / 2 && z == y / 2
    ensures Rem(x, 2 * (2 * p)) - Rem(x, 4) == 4 * Rem(z, p)
  {
    RemainderOfHalf(x, 2 * p);
    RemainderOfHalf(y, p);
    RemainderOfHalf(x, 2);
    RemIs(y, z, y % 2, 2);
    hide *;
  }

  /** Masking with `2^k - 4` rounds the remainder by `2^k` down to a whole word. */
  lemma WordMaskIsRemainder(x: int, k: nat)
    requires k >= 2
    ensures And(x, Pow2(k) - 4) == Rem(x, Pow2(k)) - Rem(x, 4)
  {
    hide *;
    var p: Positive := Pow2(k - 2);
    var y := x / 2;
    var z := y / 2;
    PowTwice(k);
    LowBits(x, p, y, z);
    EvenMask(x, 2 * p - 2);
    EvenMask(y, p - 1);
    MaskIsRemainder(z, k - 2);
    assert Pow2(k) - 4 == 2 * (2 * p - 2) && 2 * p - 2 == 2 * (p - 1);
  }

  /** Masking with `~3`. */
  lemma WordsOf(x: int)
    ensures And(x, -4) == x - Rem(x, 4)
  {
    var y := x / 2;
    var z := y / 2;
    RemainderOfHalf(x, 2);
    RemIs(y, z, y % 2, 2);
    EvenMask(x, -2);
    EvenMask(y, -1);
    assert And(z, -1) == z;
    hide *;
  }
}

/** The ring buffer between the writing process and the DMA channel. */
module UserSource {
  import opened Registers
  import opened Bits

  type Byte = bv8

  // The ring arithmetic of the kernel's circ_buf.h.

  function CircCnt(head: int, tail: int, size: int): int { And(head - tail, size - 1) }

  function CircSpace(head: int, tail: int, size: int): int { CircCnt(tail, head + 1, size) }

  function CircCntToEnd(head: int, tail: int, size: int): int {
    var end := size - tail;
    var n := And(head + end, size - 1);
    if n < end then n else end
  }

  function CircSpaceToEnd(head: int, tail: int, size: int): int {
    var end := size - 1 - head;
    var n := And(end + tail, size - 1);
    if n <= end then n else end + 1
  }

  /** The bytes from `tail` round to `head`. */
  function Queued(data: seq<Byte>, head: nat, tail: nat): seq<Byte>
    requires head <= |data| && tail <= |data|
  {
    if tail <= head then data[tail..head] else data[tail..] + data[..head]
  }

  function Least(a: nat, b: nat): nat { if a <= b then a else b }

  predicate Aligned(n: int) { n % 4 == 0 }

  /** `n` without its last, incomplete word. */
  function Words(n: nat): (w: nat)
    ensures w <= n && Aligned(w) && n - w < 4
  {
    n - n % 4
  }

  predicate Indices(head: nat, tail: nat, size: nat) {
    head < size && tail < size && Aligned(head) && Aligned(tail)
  }

  lemma SizeIsWords(order: nat)
    requires order >= 2
    ensures Aligned(Pow2(order)) && Pow2(order) >= 4
  {
    assert Pow2(order) == 4 * Pow2(order - 2);
  }

  lemma Masked(x: int, order: nat)
    requires 0 <= x + Pow2(order) && x < 2 * Pow2(order)
    ensures And(x, Pow2(order) - 1) == Rem(x, Pow2(order))
      == if x < 0 then x + Pow2(order) else if x < Pow2(order) then x else x - Pow2(order)
  {
    var p := Pow2(order);
    MaskIsRemainder(x, order);
    hide *;
    if x < 0 { RemIs(x, -1, x + p, p); }
    else if x < p { RemIs(x, 0, x, p); }
    else { RemIs(x, 1, x - p, p); }
  }

  lemma QueueIsWords(data: seq<Byte>, head: nat, tail: nat)
    requires Indices(head, tail, |data|) && Aligned(|data|)
    ensures var n := |Queued(data, head, tail)|;
      n <= |data| - 4 && Aligned(n) && n == if tail <= head then head - tail else head - tail + |data|
  {
  }

  lemma RingCounts(order: nat, data: seq<Byte>, head: nat, tail: nat)
    requires order >= 2 && |data| == Pow2(order) && Indices(head, tail, |data|)
    ensures var size, n := |data|, |Queued(data, head, tail)|;
      && n <= size - 4 && Aligned(n)
      && CircCnt(head, tail, size) == n
      && CircCntToEnd(head, tail, size) == Least(n, size - tail)
      && Aligned(Least(n, size - tail))
  {
    SizeIsWords(order);
    QueueIsWords(data, head, tail);
    Masked(head - tail, order);
    Masked(head + (|data| - tail), order);
    LeastAligned(|Queued(data, head, tail)|, |data|, tail);
    assert head < |data| && tail < |data|;
    hide And, Pow2, Queued, Rem, Aligned, Indices;
  }

  lemma LeastAligned(n: nat, size: nat, tail: nat)
    requires Aligned(n) && Aligned(size) && Aligned(tail) && tail <= size
    ensures Aligned(Least(n, size - tail))
  {
  }

  lemma RingSpaces(order: nat, data: seq<Byte>, head: nat, tail: nat)
    requires order >= 2 && |data| == Pow2(order) && Indices(head, tail, |data|)
    ensures var size, n := |data|, |Queued(data, head, tail)|;
      && n <= size - 4
      && CircSpace(head, tail, size) == size - 1 - n
      && And(CircSpaceToEnd(head, tail, size), -4) == Least(size - 4 - n, size - head)
  {
    var size: nat := |data|;
    assert head < size && tail < size;
    SizeIsWords(order);
    QueueIsWords(data, head, tail);
    Masked(tail - (head + 1), order);
    Masked(size - 1 - head + tail, order);
    WordsOf(CircSpaceToEnd(head, tail, size));
    var n := |Queued(data, head, tail)|;
    ToEnd(size, head, tail, n);
    hide And, Pow2, Queued, Rem, Indices, Least, Aligned;
  }

  /** What the ring arithmetic says about the queue of a ring of `2^order` bytes. */
  lemma RingArithmetic(order: nat, data: seq<Byte>, head: nat, tail: nat)
    requires order >= 2 && |data| == Pow2(order) && Indices(head, tail, |data|)
    ensures var size, n := |data|, |Queued(data, head, tail)|;
      && n <= size - 4 && Aligned(n)
      && CircCnt(head, tail, size) == n
      && CircSpace(head, tail, size) == size - 1 - n
      && CircCntToEnd(head, tail, size) == Least(n, size - tail)
      && Aligned(Least(n, size - tail))
      && And(CircSpaceToEnd(head, tail, size), -4) == Least(size - 4 - n, size - head)
  {
    RingCounts(order, data, head, tail);
    RingSpaces(order, data, head, tail);
    hide *;
  }

  lemma FreeRegion(order: nat, data: seq<Byte>, head: nat, tail: nat)
    requires order >= 2 && |data| == Pow2(order) && Indices(head, tail, |data|)
    ensures var size, n := |data|, |Queued(data, head, tail)|; var space := And(CircSpaceToEnd(head, tail, size), -4);
      && n <= size - 4 && space == Least(size - 4 - n, size - head) && Aligned(space)
      && (tail <= head || head + space <= tail)
  {
    hide Queued, And, Aligned, Pow2, CircSpaceToEnd;
    RingSpaces(order, data, head, tail);
    SizeIsWords(order);
    QueueIsWords(data, head, tail);
    FreeIsWords(|data|, |Queued(data, head, tail)|, head, tail);
  }

  lemma FreeIsWords(size: nat, n: nat, head: nat, tail: nat)
    requires Indices(head, tail, size) && Aligned(size) && Aligned(n) && n <= size - 4
    ensures Aligned(Least(size - 4 - n, size - head))
  {
  }

  /** Rounding the free bytes down to words leaves one word free. */
  lemma ToEndWords(s: nat, h: nat, q: nat)
    requires h < s && q < s
    ensures var m := 4 * s - 1 - 4 * q;
      var space := if m <= 4 * s - 1 - 4 * h then m else 4 * s - 4 * h;
      space - Rem(space, 4) == Least(4 * s - 4 - 4 * q, 4 * s - 4 * h)
  {
    RemIs(4 * s - 1 - 4 * q, s - q - 1, 3, 4);
    RemIs(4 * s - 4 * h, s - h, 0, 4);
    hide Rem;
  }

  lemma InWords(n: nat) returns (q: nat)
    requires Aligned(n)
    ensures n == 4 * q
  {
    q := n / 4;
  }

  lemma ToEnd(size: nat, head: nat, tail: nat, n: nat)
    requires Indices(head, tail, size) && Aligned(size) && Aligned(n) && n < size
    ensures var m := size - 1 - n;
      var space := if m <= size - 1 - head then m else size - head;
      space - Rem(space, 4) == Least(size - 4 - n, size - head)
  {
    var s := InWords(size);
    var h := InWords(head);
    var q := InWords(n);
    ToEndWords(s, h, q);
    hide *;
  }

  lemma MovedWords(x: nat, s: nat, m: nat, r: nat)
    requires x == 4 * m + r && r < 4 && m <= s && x <= 4 * s
    ensures (if x < 4 * s then x else x - 4 * s) - r == if m == s then 0 else 4 * m
  {
  }

  /** Moving an index by `count` bytes, in the code's way. */
  lemma Moved(order: nat, index: nat, count: nat)
    requires order >= 2 && index < Pow2(order) && Aligned(index) && index + count <= Pow2(order)
    ensures var to := And(index + count, Pow2(order) - 4);
      && 0 <= to < Pow2(order) && Aligned(to)
      && to == if index + Words(count) == Pow2(order) then 0 else index + Words(count)
  {
    hide And, Pow2, Rem, Aligned;
    SizeIsWords(order);
    var s := InWords(Pow2(order));
    var a := InWords(index);
    SplitWords(count);
    var c, r := count / 4, count % 4;
    hide *;
    WordMaskIsRemainder(index + count, order);
    Masked(index + count, order);
    RemIs(index + count, a + c, r, 4);
    Multiple(a + c);
    Multiple(0);
    MovedWords(index + count, s, a + c, r);
  }

  lemma SplitWords(count: nat)
    ensures count == 4 * (count / 4) + count % 4 && Words(count) == 4 * (count / 4)
  {
  }

  lemma Multiple(m: int)
    ensures Aligned(4 * m)
  {
  }

  lemma Pushed(data: seq<Byte>, head: nat, tail: nat, count: nat)
    requires head < |data| && tail < |data| && head + count <= |data|
    requires count < |data| - |Queued(data, head, tail)|
    ensures var to := if head + count == |data| then 0 else head + count;
      Queued(data, to, tail) == Queued(data, head, tail) + data[head..head + count]
  {
    if tail <= head {
      Joined(data, tail, head, head + count);
      if head + count == |data| { assert data[tail..] + data[..0] == data[tail..head + count]; }
    } else {
      Joined(data, 0, head, head + count);
      assert data[tail..] + (data[..head] + data[head..head + count]) == data[tail..] + data[..head] + data[head..head + count];
    }
  }

  lemma WordsBound(n: nat)
    ensures Words(n) <= n
  {
  }

  /** What lies in the free region is no part of the queue. */
  lemma OutsideQueue(was: seq<Byte>, now: seq<Byte>, head: nat, tail: nat, room: nat)
    requires |was| == |now| && head < |was| && tail < |was| && head + room <= |was|
    requires room < |was| - |Queued(was, head, tail)|
    requires forall k :: 0 <= k < |was| && !(head <= k < head + room) ==> now[k] == was[k]
    ensures Queued(now, head, tail) == Queued(was, head, tail)
  {
  }

  lemma Joined(data: seq<Byte>, a: nat, b: nat, c: nat)
    requires a <= b <= c <= |data|
    ensures data[a..b] + data[b..c] == data[a..c]
  {
  }

  lemma Popped(data: seq<Byte>, head: nat, tail: nat, count: nat)
    requires head < |data| && tail < |data| && count <= |Queued(data, head, tail)| && tail + count <= |data|
    ensures var to := if tail + count == |data| then 0 else tail + count;
      Queued(data, head, to) == Queued(data, head, tail)[count..]
    ensures data[tail..tail + count] == Queued(data, head, tail)[..count]
  {
  }

  class UserSource {
    const order: nat
    const size: nat
    const data: array<Byte>
    var head: nat
    var tail: nat
    var off: nat

    predicate Valid()
      reads this
    {
      order >= 2 && size == data.Length == Pow2(order) && Indices(head, tail, size)
    }

    /** The bytes waiting to be transferred. */
    function Queue(): (q: seq<Byte>)
      requires Valid()
      reads this, data
      ensures |q| <= size - 4 && Aligned(|q|)
    {
      RingArithmetic(order, data[..], head, tail);
      Queued(data[..], head, tail)
    }

    constructor (order: nat)
      requires order >= 2
      ensures Valid() && Queue() == [] && fresh(data) && off == 0 && this.order == order && head == 0
    {
      this.order := order;
      size := Pow2(order);
      data := new Byte[Pow2(order)];
      head, tail, off := 0, 0, 0;
      new;
      SizeIsWords(order);
    }

    /** The largest contiguous free region, in whole words: it holds no queued byte. */
    method SpaceAvailable() returns (space: nat, dest: nat)
      requires Valid()
      ensures dest == head && dest + space <= size && Aligned(space)
      ensures space == Least(size - 4 - |Queue()|, size - dest)
      ensures tail <= dest || dest + space <= tail
    {
      hide Queued, And, Aligned, Pow2, CircSpaceToEnd;
      FreeRegion(order, data[..], head, tail);
      space, dest := And(CircSpaceToEnd(head, tail, size), -4), head;
    }

    /** The longest contiguous region that starts the queue. */
    method DataAvailable() returns (count: nat, src: nat)
      requires Valid()
      ensures count == Least(|Queue()|, size - tail) && Aligned(count) && src == tail && src + count <= size
      ensures data[src..src + count] == Queue()[..count]
      ensures count == 0 <==> Queue() == []
    {
      RingArithmetic(order, data[..], head, tail);
      SizeIsWords(order);
      count := CircCntToEnd(head, tail, size);
      Popped(data[..], head, tail, count);
      hide Queued, And, Indices, Aligned;
      src := tail;
    }

    method DataTotal() returns (count: nat)
      requires Valid()
      ensures count == |Queue()|
    {
      RingArithmetic(order, data[..], head, tail);
      count := CircCnt(head, tail, size);
    }

    /** Copies the writer's bytes into an offered region, or, for a mapped ring, trusts that
        the writer put them there.  A failing copy leaves part of them behind. */
    method Work(src: seq<Byte>, dest: nat, destCount: nat, mapped: bool, fault: bool, part: nat) returns (ret: int)
      requires Valid() && dest == head && destCount <= Least(size - 4 - |Queue()|, size - dest)
      modifies data
      ensures Queue() == old(Queue())
      ensures ret == if !mapped && fault then -14 else Least(|src|, destCount)
      ensures ret >= 0 ==> data[dest..dest + ret] == if mapped then old(data[dest..dest + ret]) else src[..ret]
    {
      hide Queued, Aligned;
      var count := Least(|src|, destCount);
      if !mapped {
        Fill(src[..if fault then Least(part, count) else count], dest);
        OutsideQueue(old(data[..]), data[..], head, tail, destCount);
        if fault { return -14; }
      }
      ret := count;
    }

    /** Copies bytes into the buffer. */
    method Fill(src: seq<Byte>, dest: nat)
      requires dest + |src| <= data.Length
      modifies data
      ensures data[dest..dest + |src|] == src
      ensures forall k :: 0 <= k < data.Length && !(dest <= k < dest + |src|) ==> data[k] == old(data[k])
    {
      for i := 0 to |src|
        invariant data[dest..dest + i] == src[..i]
        invariant forall k :: 0 <= k < data.Length && !(dest <= k < dest + i) ==> data[k] == old(data[k])
      {
        data[dest + i] := src[i];
      }
    }

    /** Puts the whole words among `count` bytes that lie behind the queue into it. */
    method Produce(count: nat)
      requires Valid() && count <= Least(size - 4 - |Queue()|, size - head)
      modifies this`head, this`off
      ensures Valid() && Queue() == old(Queue()) + data[old(head)..old(head) + Words(count)]
      ensures off == old(off) + count
    {
      hide Queued, And, Aligned, Words, Pow2;
      SizeIsWords(order);
      WordsBound(count);
      Moved(order, head, count);
      Pushed(data[..], head, tail, Words(count));
      head := And(head + count, size - 4);
      off := off + count;
    }

    /** Takes the whole words among `count` bytes off the front. */
    method Consume(count: nat)
      requires Valid() && count <= Least(|Queue()|, size - tail)
      modifies this`tail
      ensures Valid() && Queue() == old(Queue())[Words(count)..]
    {
      hide Queued, And, Aligned, Words, Pow2;
      SizeIsWords(order);
      WordsBound(count);
      Moved(order, tail, count);
      Popped(data[..], head, tail, Words(count));
      tail := And(tail + count, size - 4);
    }
  }
}
