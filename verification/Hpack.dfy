/** Reading the value of a header: its length (section 5.1 of RFC 7541), then its octets. */
module Hpack {
  import opened Registers
  import opened Huffman

  datatype Phase = HLen | HLenExt | Data | Type | DiscardPadding

  datatype Fragment = Fragment(offset: nat, len: nat)

  /** The reader's state: `data` is what the header buffer holds so far, `frags` the fragments
      that are complete. */
  datatype View = View(phase: Phase, len: nat, m: nat, pos: nat, huff: bool, data: seq<Byte>,
    frags: seq<Fragment>, current: Fragment, index: map<nat, nat>)

  /** The header's token, the buffers' sizes, and what the rest of the connection decides: whether
      the value ends the frame but for padding, and whether the header is to enter a dynamic
      table that is full. */
  datatype Setup = Setup(token: nat, size: nat, maxFrags: nat, last: bool, tableFull: bool)

  datatype Out = Out(view: View, ret: int)

  const WRAP := 0x1_0000_0000

  /** No fragment is being filled. */
  const NONE := Fragment(0, 0)

  function PreData(s: Setup, v: View): Out {
    if s.token == 0 || |v.frags| >= s.maxFrags then Out(v, 1)
    else Out(v.(phase := Data, current := Fragment(|v.data|, 0), index := v.index[s.token := |v.frags|]), 0)
  }

  /** Bytes go to the buffer until one fills it. */
  function Append(s: Setup, v: View, bytes: seq<Byte>): Out
    decreases |bytes|
  {
    if bytes == [] then Out(v, 0)
    else
      var w := v.(data := v.data + [bytes[0]], current := v.current.(len := v.current.len + 1));
      if |w.data| >= s.size then Out(w, 1) else Append(s, w, bytes[1..])
  }

  function Closed(s: Setup, v: View): View {
    v.(frags := v.frags + [v.current], current := NONE, phase := if s.last then DiscardPadding else Type)
  }

  function EndOfValue(s: Setup, v: View): Out {
    if s.tableFull then Out(v, 1)
    else
      var o := Append(s, v, [0]);
      if o.ret != 0 then o
      else Out(Closed(s, o.view), 0)
  }

  function DataOctet(s: Setup, v: View, c: Byte): Out {
    var m := if v.huff then Decode(v.pos, Bits(c, 8)) else Move(v.pos, [c]);
    var o := Append(s, v.(pos := m.pos), m.out);
    if o.ret != 0 then o
    else
      var w := o.view.(len := (v.len - 1) % WRAP);
      if w.len == 0 then EndOfValue(s, w) else Out(w, 0)
  }

  /** One octet.  What comes after a value is not part of this model. */
  function Step(s: Setup, v: View, c: Byte): Out {
    match v.phase
    case HLen =>
      var w := v.(huff := c >= 128, pos := 0, len := c % 128);
      if w.len < 127 then PreData(s, w) else Out(w.(m := 0, phase := HLenExt), 0)
    case HLenExt =>
      var w := v.(len := (v.len + c % 128 * Pow2(v.m)) % WRAP, m := (v.m + 7) % 256);
      if c < 128 then PreData(s, w) else Out(w, 0)
    case Data => DataOctet(s, v, c)
    case _ => Out(v, 1)
  }

  function Run(s: Setup, v: View, octets: seq<Byte>): Out
    decreases |octets|
  {
    if octets == [] then Out(v, 0)
    else
      var o := Step(s, v, octets[0]);
      if o.ret != 0 then o else Run(s, o.view, octets[1..])
  }

  lemma RunOne(s: Setup, v: View, c: Byte, rest: seq<Byte>)
    ensures var o := Step(s, v, c); Run(s, v, [c] + rest) == if o.ret != 0 then o else Run(s, o.view, rest)
  {
    assert ([c] + rest)[0] == c && ([c] + rest)[1..] == rest;
  }

  lemma {:induction false} RunAppend(s: Setup, v: View, a: seq<Byte>, b: seq<Byte>)
    ensures var o := Run(s, v, a); Run(s, v, a + b) == if o.ret != 0 then o else Run(s, o.view, b)
    decreases |a|
  {
    hide Step;
    if a == [] {
      assert a + b == b;
    } else {
      assert a + b == [a[0]] + (a[1..] + b);
      RunOne(s, v, a[0], a[1..] + b);
      var o := Step(s, v, a[0]);
      if o.ret == 0 { RunAppend(s, o.view, a[1..], b); }
    }
  }

  // ---- lengths

  /** A number in groups of seven bits, least significant first. */
  function Groups(k: nat): seq<Byte> {
    if k < 128 then [k] else [128 + k % 128] + Groups(k / 128)
  }

  /** A length as section 5.1 writes it, with the Huffman flag beside it. */
  function LengthOctets(huff: bool, n: nat): seq<Byte> {
    var flag := if huff then 128 else 0;
    if n < 127 then [flag + n] else [flag + 127] + Groups(n - 127)
  }

  lemma LastGroup(s: Setup, v: View, c: Byte)
    requires v.phase == HLenExt && c < 128 && v.len + c * Pow2(v.m) < WRAP
    ensures Step(s, v, c) == PreData(s, v.(len := v.len + c * Pow2(v.m), m := (v.m + 7) % 256))
  {
    hide PreData, Pow2;
  }

  lemma NextGroup(s: Setup, v: View, c: nat)
    requires v.phase == HLenExt && c < 128 && v.m <= 31 && v.len + c * Pow2(v.m) < WRAP
    ensures Step(s, v, 128 + c) == Out(v.(len := v.len + c * Pow2(v.m), m := v.m + 7), 0)
  {
    hide PreData, Pow2;
    assert (128 + c) % 128 == c;
  }

  /** A length after a further `k` from bit `m` on. */
  function Grown(len: nat, k: nat, m: nat): (n: nat)
    ensures n >= len
  {
    Product(k, Pow2(m));
    len + k * Pow2(m)
  }

  lemma Product(a: nat, b: nat)
    ensures a * b >= 0
  {
  }

  /** The groups add up, as long as they fit a machine word. */
  lemma {:induction false} GroupsRead(s: Setup, v: View, k: nat) returns (m: nat)
    requires v.phase == HLenExt && v.m <= 31 && Grown(v.len, k, v.m) < 0x8000_0000
    ensures Run(s, v, Groups(k)) == PreData(s, v.(len := Grown(v.len, k, v.m), m := m))
    decreases k
  {
    hide PreData, Pow2, Step;
    var p := Pow2(v.m);
    if k < 128 {
      m := (v.m + 7) % 256;
      LastGroup(s, v, k);
      RunOne(s, v, k, []);
      assert [k] + [] == [k];
      var o := Step(s, v, k);
    } else {
      var c, rest := k % 128, k / 128;
      Pow2Add(v.m, 7);
      Seven();
      Regroup(k, p);
      SmallPower(v.m, k);
      var w := v.(len := v.len + c * p, m := v.m + 7);
      NextGroup(s, v, c);
      RunOne(s, v, 128 + c, Groups(rest));
      m := GroupsRead(s, w, rest);
    }
  }

  lemma Seven()
    ensures Pow2(7) == 128
  {
  }

  lemma Regroup(k: nat, p: nat)
    ensures k % 128 * p + k / 128 * (p * 128) == k * p
    ensures k % 128 * p <= k * p
  {
    var c, r := k % 128, k / 128;
    assert k == 128 * r + c;
    assert k * p == 128 * r * p + c * p;
    assert 128 * r * p == r * (p * 128);
    assert r * (p * 128) >= 0;
  }

  lemma Large(k: nat, p: nat)
    requires k >= 128
    ensures k * p >= 128 * p
  {
    assert k * p == 128 * p + (k - 128) * p;
    assert (k - 128) * p >= 0;
  }

  lemma TwentyFive()
    ensures Pow2(25) == 0x200_0000
  {
    assert Pow2(10) == 1024;
    assert Pow2(20) == 1024 * 1024 by { Pow2Add(10, 10); }
    assert Pow2(25) == Pow2(20) * Pow2(5) by { Pow2Add(20, 5); }
    assert Pow2(5) == 32;
  }

  lemma SmallPower(m: nat, k: nat)
    requires k >= 128 && k * Pow2(m) < 0x8000_0000
    ensures m + 7 <= 31
  {
    hide Pow2;
    var p := Pow2(m);
    Large(k, p);
    if m >= 25 {
      Pow2Monotone(25, m);
      TwentyFive();
    }
  }

  /** The length octets are read as the length they stand for. */
  lemma LengthRead(s: Setup, v: View, huff: bool, n: nat) returns (m: nat)
    requires v.phase == HLen && n < 0x8000_0000
    ensures var o, p := Run(s, v, LengthOctets(huff, n)), PreData(s, v.(huff := huff, pos := 0, len := n, m := m));
      o.ret == p.ret && (p.ret == 0 ==> o == p)
  {
    hide PreData, Pow2;
    var flag := if huff then 128 else 0;
    if n < 127 {
      m := v.m;
      var o := Step(s, v, flag + n);
      assert o == PreData(s, v.(huff := huff, pos := 0, len := n));
      RunOne(s, v, flag + n, []);
      assert [flag + n] + [] == [flag + n];
      hide Step;
      assert o.ret == 0 ==> Run(s, o.view, []) == o;
    } else {
      var w := v.(huff := huff, pos := 0, len := 127, m := 0, phase := HLenExt);
      assert Step(s, v, flag + 127) == Out(w, 0);
      hide Step;
      RunOne(s, v, flag + 127, Groups(n - 127));
      assert Pow2(0) == 1 by { PowZero(); }
      m := GroupsRead(s, w, n - 127);
      PreDataPhase(s, w.(len := n, m := m), v.(huff := huff, pos := 0, len := n, m := m));
    }
  }

  lemma PowZero()
    ensures Pow2(0) == 1
  {
  }

  lemma PreDataPhase(s: Setup, v: View, w: View)
    requires v.(phase := Data) == w.(phase := Data)
    ensures PreData(s, v).ret == PreData(s, w).ret
    ensures PreData(s, v).ret == 0 ==> PreData(s, v) == PreData(s, w)
  {
  }

  // ---- values

  function Extended(v: View, bytes: seq<Byte>): View {
    v.(data := v.data + bytes, current := v.current.(len := v.current.len + |bytes|))
  }

  /** Appending succeeds exactly when the bytes leave at least one place free. */
  lemma {:induction false} Appended(s: Setup, v: View, bytes: seq<Byte>)
    requires |v.data| < s.size
    ensures Append(s, v, bytes).ret == if |v.data| + |bytes| < s.size then 0 else 1
    ensures |v.data| + |bytes| < s.size ==> Append(s, v, bytes) == Out(Extended(v, bytes), 0)
    decreases |bytes|
  {
    if bytes == [] {
      assert v.data + [] == v.data;
    } else {
      var w := Extended(v, [bytes[0]]);
      if |w.data| < s.size {
        Appended(s, w, bytes[1..]);
        assert w.data + bytes[1..] == v.data + bytes;
      }
    }
  }

  /** What some octets of a value stand for, and where in a symbol they end. */
  function Meaning(huff: bool, pos: nat, octets: seq<Byte>): Move {
    if huff then Decode(pos, AllBits(octets)) else Move(pos, octets)
  }

  lemma MeaningFirst(huff: bool, pos: nat, c: Byte, rest: seq<Byte>)
    ensures var m := Meaning(huff, pos, [c]); var r := Meaning(huff, m.pos, rest);
      && Meaning(huff, pos, [c] + rest) == r.(out := m.out + r.out)
      && m == if huff then Decode(pos, Bits(c, 8)) else Move(pos, [c])
  {
    hide Decode;
    assert ([c] + rest)[1..] == rest && [c][1..] == [];
    assert AllBits([c]) == Bits(c, 8) + [] == Bits(c, 8);
    DecodeAppend(pos, Bits(c, 8), AllBits(rest));
  }

  function Complete(s: Setup, v: View, m: Move): View {
    Closed(s, Extended(v, m.out + [0]).(len := 0, pos := m.pos))
  }

  lemma EndRead(s: Setup, v: View)
    requires |v.data| < s.size && !s.tableFull && v.len == 0
    ensures EndOfValue(s, v).ret == if |v.data| + 1 < s.size then 0 else 1
    ensures |v.data| + 1 < s.size ==> EndOfValue(s, v) == Out(Complete(s, v, Move(v.pos, [])), 0)
  {
    Appended(s, v, [0]);
    assert [] + [0] == [0];
    hide Append;
  }

  lemma DataStep(s: Setup, v: View, c: Byte)
    requires v.phase == Data && |v.data| < s.size && 1 < v.len < WRAP
    ensures var m := Meaning(v.huff, v.pos, [c]); var o := Step(s, v, c);
      && (o.ret == if |v.data| + |m.out| < s.size then 0 else 1)
      && (o.ret == 0 ==> o.view == Extended(v, m.out).(pos := m.pos, len := v.len - 1))
  {
    hide Decode, Append, AllBits;
    MeaningFirst(v.huff, v.pos, c, []);
    var m := Meaning(v.huff, v.pos, [c]);
    Appended(s, v.(pos := m.pos), m.out);
    hide Meaning;
  }

  lemma LastStep(s: Setup, v: View, c: Byte)
    requires v.phase == Data && |v.data| < s.size && v.len == 1 && !s.tableFull
    ensures var m := Meaning(v.huff, v.pos, [c]); var o := Step(s, v, c);
      && (o.ret == if |v.data| + |m.out| + 1 < s.size then 0 else 1)
      && (o.ret == 0 ==> o.view == Complete(s, v, m))
  {
    hide Decode, Append, AllBits, EndOfValue;
    MeaningFirst(v.huff, v.pos, c, []);
    var m := Meaning(v.huff, v.pos, [c]);
    Appended(s, v.(pos := m.pos), m.out);
    hide Meaning;
    if |v.data| + |m.out| < s.size {
      var w := Extended(v, m.out).(pos := m.pos, len := 0);
      EndRead(s, w);
      assert v.data + m.out + [0] == v.data + (m.out + [0]);
      assert Complete(s, w, Move(m.pos, [])).data == w.data + ([] + [0]);
      assert [] + [0] == [0];
    }
  }

  lemma CompleteRest(s: Setup, v: View, m: Move, r: Move, len: nat)
    ensures Complete(s, Extended(v, m.out).(pos := m.pos, len := len), r) == Complete(s, v, r.(out := m.out + r.out))
  {
    assert v.data + m.out + (r.out + [0]) == v.data + (m.out + r.out + [0]);
  }

  /** The octets of a value append what they stand for and a zero, exactly when the header
      buffer has room for all of it and one byte more. */
  lemma {:induction false} DataRead(s: Setup, v: View, octets: seq<Byte>)
    requires v.phase == Data && |v.data| < s.size && !s.tableFull && 0 < v.len == |octets| < WRAP
    ensures var m := Meaning(v.huff, v.pos, octets); var o := Run(s, v, octets);
      && (o.ret == if |v.data| + |m.out| + 1 < s.size then 0 else 1)
      && (o.ret == 0 ==> o.view == Complete(s, v, m))
    decreases |octets|
  {
    hide Step, Meaning;
    var c, rest := octets[0], octets[1..];
    assert octets == [c] + rest;
    RunOne(s, v, c, rest);
    if rest == [] {
      LastStep(s, v, c);
      assert octets == [c];
    } else {
      DataStep(s, v, c);
      MeaningFirst(v.huff, v.pos, c, rest);
      var m := Meaning(v.huff, v.pos, [c]);
      var r := Meaning(v.huff, m.pos, rest);
      if |v.data| + |m.out| < s.size {
        var w := Extended(v, m.out).(pos := m.pos, len := v.len - 1);
        DataRead(s, w, rest);
        CompleteRest(s, v, m, r, v.len - 1);
        hide Complete;
      }
    }
  }

  /** A string literal: its length and its octets, as they are or in the Huffman code. */
  function Payload(huff: bool, text: seq<Byte>): seq<Byte> {
    if huff then Coded(text) else text
  }

  function Literal(huff: bool, text: seq<Byte>): seq<Byte> {
    LengthOctets(huff, |Payload(huff, text)|) + Payload(huff, text)
  }

  /** A header value, read from its length to its end, is appended to the header buffer as it
      was before coding, exactly when the buffer and the table of fragments have room. */
  lemma ValueRead(s: Setup, v: View, huff: bool, text: seq<Byte>)
    requires v.phase == HLen && |v.data| < s.size && !s.tableFull && s.token != 0
    requires text != [] && |Payload(huff, text)| < 0x8000_0000
    ensures var o := Run(s, v, Literal(huff, text));
      && (o.ret == if |v.frags| < s.maxFrags && |v.data| + |text| + 1 < s.size then 0 else 1)
      && (o.ret == 0 ==>
        && o.view.data == v.data + text + [0] && o.view.index == v.index[s.token := |v.frags|]
        && o.view.frags == v.frags + [Fragment(|v.data|, |text| + 1)]
        && o.view.phase == if s.last then DiscardPadding else Type)
  {
    hide Step, LengthOctets, Run, Payload, Meaning, Decode, AllBits;
    var octets := Payload(huff, text);
    PayloadNotEmpty(huff, text);
    var m := LengthRead(s, v, huff, |octets|);
    RunAppend(s, v, LengthOctets(huff, |octets|), octets);
    if |v.frags| < s.maxFrags {
      var w := PreData(s, v.(huff := huff, pos := 0, len := |octets|, m := m)).view;
      DataRead(s, w, octets);
      PayloadMeans(huff, text);
      assert v.data + (text + [0]) == v.data + text + [0];
    }
  }

  lemma PayloadMeans(huff: bool, text: seq<Byte>)
    ensures Meaning(huff, 0, Payload(huff, text)).out == text
  {
    if huff { CodedDecodes(text); }
    hide Coded;
  }

  /** A string that is not empty has a payload that is not. */
  lemma PayloadNotEmpty(huff: bool, text: seq<Byte>)
    requires text != []
    ensures Payload(huff, text) != []
  {
    if huff && Coded(text) == [] { CodedDecodes(text); }
  }

  /** With room, a value read from its length to its last octet ends, exactly when it is not
      empty; after an empty one the reader awaits octets of a value of which none is left. */
  lemma ValueEndsIff(s: Setup, v: View, huff: bool, text: seq<Byte>)
    requires v.phase == HLen && s.token != 0 && !s.tableFull && |v.frags| < s.maxFrags
    requires |v.data| + |text| + 1 < s.size && |Payload(huff, text)| < 0x8000_0000
    ensures var o := Run(s, v, Literal(huff, text));
      && o.ret == 0 && (o.view.phase != Data <==> text != [])
      && (text == [] ==> o.view.len == 0 && o.view.data == v.data && o.view.frags == v.frags)
  {
    hide Run;
    if text != [] {
      ValueRead(s, v, huff, text);
    } else {
      EmptyRead(s, v, huff);
    }
  }

  /** What the reader makes of an empty value. */
  lemma EmptyRead(s: Setup, v: View, huff: bool)
    requires v.phase == HLen && s.token != 0 && |v.frags| < s.maxFrags
    ensures var o := Run(s, v, Literal(huff, []));
      && o.ret == 0 && o.view.phase == Data && o.view.len == 0 && o.view.pos == 0 && o.view.huff == huff
      && o.view.data == v.data && o.view.frags == v.frags
  {
    hide Run, LengthOctets;
    CodedNothing();
    assert Literal(huff, []) == LengthOctets(huff, 0) by { assert LengthOctets(huff, 0) + [] == LengthOctets(huff, 0); }
    var m := LengthRead(s, v, huff, 0);
  }

  /** Octets that do not use up the length are taken into the value. */
  lemma {:induction false} DataGoesOn(s: Setup, v: View, octets: seq<Byte>)
    requires v.phase == Data && |octets| < v.len < WRAP
    requires |v.data| + |Meaning(v.huff, v.pos, octets).out| < s.size
    ensures var m := Meaning(v.huff, v.pos, octets);
      Run(s, v, octets) == Out(Extended(v, m.out).(pos := m.pos, len := v.len - |octets|), 0)
    decreases |octets|
  {
    if octets == [] {
      NothingMeans(v.huff, v.pos);
      assert v.data + [] == v.data;
    } else {
      hide Step, Meaning;
      var c, rest := octets[0], octets[1..];
      assert octets == [c] + rest;
      RunOne(s, v, c, rest);
      DataStep(s, v, c);
      MeaningFirst(v.huff, v.pos, c, rest);
      var m := Meaning(v.huff, v.pos, [c]);
      var r := Meaning(v.huff, m.pos, rest);
      var w := Extended(v, m.out).(pos := m.pos, len := v.len - 1);
      hide Run;
      DataGoesOn(s, w, rest);
      MovedTwice(v, m, r, v.len - 1, v.len - |octets|);
    }
  }

  lemma MovedTwice(v: View, m: Move, r: Move, k: nat, n: nat)
    ensures Extended(Extended(v, m.out).(pos := m.pos, len := k), r.out).(pos := r.pos, len := n)
      == Extended(v, m.out + r.out).(pos := r.pos, len := n)
  {
    assert v.data + m.out + r.out == v.data + (m.out + r.out);
  }

  lemma NothingMeans(huff: bool, pos: nat)
    ensures Meaning(huff, pos, []) == Move(pos, [])
  {
  }

  /** An empty value is where the reader fails: the length is counted down before it is looked
      at, so the octets that follow, up to nearly 2^32 of them, are taken for the value. */
  lemma EmptyValueRunsOn(s: Setup, v: View, huff: bool, octets: seq<Byte>)
    requires v.phase == HLen && s.token != 0 && |v.frags| < s.maxFrags
    requires 0 < |octets| < WRAP && |v.data| + |Meaning(huff, 0, octets).out| < s.size
    ensures var o := Run(s, v, Literal(huff, []) + octets);
      && o.ret == 0 && o.view.data == v.data + Meaning(huff, 0, octets).out && o.view.frags == v.frags
      && o.view.phase == Data && o.view.len == WRAP - |octets|
  {
    hide Run, Meaning, Literal, Step;
    EmptyRead(s, v, huff);
    var d := Run(s, v, Literal(huff, [])).view;
    RunAppend(s, v, Literal(huff, []), octets);
    var c, rest := octets[0], octets[1..];
    assert octets == [c] + rest;
    var m := Meaning(huff, 0, [c]);
    MeaningFirst(huff, 0, c, rest);
    RunOne(s, d, c, rest);
    FirstTaken(s, d, c);
    var w := Extended(d, m.out).(pos := m.pos, len := WRAP - 1);
    DataGoesOn(s, w, rest);
    assert v.data + m.out + Meaning(huff, m.pos, rest).out == v.data + (m.out + Meaning(huff, m.pos, rest).out);
  }

  lemma FirstTaken(s: Setup, v: View, c: Byte)
    requires v.phase == Data && v.len == 0 && |v.data| + |Meaning(v.huff, v.pos, [c]).out| < s.size
    ensures var m := Meaning(v.huff, v.pos, [c]);
      Step(s, v, c) == Out(Extended(v, m.out).(pos := m.pos, len := WRAP - 1), 0)
  {
    hide Decode, Append, AllBits;
    MeaningFirst(v.huff, v.pos, c, []);
    var m := Meaning(v.huff, v.pos, [c]);
    Appended(s, v.(pos := m.pos), m.out);
    hide Meaning;
  }

  /** One octet stands for at most eight bytes, so one with room for eight runs on. */
  lemma OctetBounded(huff: bool, pos: nat, c: Byte)
    ensures |Meaning(huff, pos, [c]).out| <= 8
  {
    MeaningFirst(huff, pos, c, []);
    SymbolsBounded(pos, Bits(c, 8));
    hide Decode, Meaning;
  }

  // ---- the reader in place

  class Reader {
    const setup: Setup
    const buffer: array<Byte>
    const fragments: array<Fragment>
    var phase: Phase
    var len: nat
    var m: nat
    var pos: nat
    var huff: bool
    var filled: nat
    var nextFrag: nat
    var index: map<nat, nat>

    /** Both buffers are large enough for what was accepted so far. */
    ghost predicate Shape()
      reads this
    {
      && buffer.Length == setup.size && fragments.Length == setup.maxFrags
      && filled <= setup.size && nextFrag <= setup.maxFrags && (phase == Data ==> nextFrag < setup.maxFrags)
    }

    ghost predicate Valid()
      reads this
    {
      Shape() && filled < setup.size
    }

    ghost function State(): View
      requires Shape()
      reads this, buffer, fragments
    {
      View(phase, len, m, pos, huff, buffer[..filled], fragments[..nextFrag],
        if phase == Data then fragments[nextFrag] else NONE, index)
    }

    constructor (setup: Setup)
      requires setup.size > 0
      ensures Valid() && State().phase == HLen && State().data == [] && State().frags == []
      ensures fresh(buffer) && fresh(fragments) && this.setup == setup
    {
      this.setup := setup;
      buffer := new Byte[setup.size];
      fragments := new Fragment[setup.maxFrags](_ => NONE);
      phase, len, m, pos, huff, filled, nextFrag, index := HLen, 0, 0, 0, false, 0, 0, map[];
    }

    method FragStart() returns (ret: int)
      requires Valid() && phase != Data
      modifies this`phase, this`index, fragments
      ensures Shape() && filled == old(filled) && ret == PreData(setup, old(State())).ret
      ensures ret == 0 ==> Valid() && State() == PreData(setup, old(State())).view
    {
      if setup.token == 0 { return 1; }
      if nextFrag >= setup.maxFrags { return 1; }
      fragments[nextFrag] := Fragment(filled, 0);
      index := index[setup.token := nextFrag];
      phase := Data;
      ret := 0;
    }

    method FragAppend(c: Byte) returns (ret: int)
      requires Valid() && phase == Data
      modifies this`filled, buffer, fragments
      ensures Shape() && State() == Extended(old(State()), [c])
      ensures ret == (if filled < setup.size then 0 else 1) && filled == old(filled) + 1
    {
      buffer[filled] := c;
      filled := filled + 1;
      fragments[nextFrag] := fragments[nextFrag].(len := fragments[nextFrag].len + 1);
      ret := if filled >= setup.size then 1 else 0;
    }

    method FragEnd() returns (ret: int)
      requires Valid() && phase == Data && !setup.tableFull
      modifies this`filled, this`nextFrag, this`phase, buffer, fragments
      ensures Shape() && ret == EndOfValue(setup, old(State())).ret
      ensures ret == 0 ==> Valid() && State() == EndOfValue(setup, old(State())).view
    {
      ret := FragAppend(0);
      AppendOne(setup, old(State()), 0);
      if ret != 0 { return; }
      nextFrag := nextFrag + 1;
      phase := if setup.last then DiscardPadding else Type;
    }

    /** One symbol of the value; true once the buffer is full. */
    method Deliver(out: seq<Byte>) returns (full: bool)
      requires Valid() && phase == Data && |out| <= 1
      modifies this`filled, buffer, fragments
      ensures Shape() && State() == Extended(old(State()), out) && full == (filled >= setup.size)
    {
      full := false;
      assert State().data + [] == State().data;
      if |out| == 1 {
        var ret := FragAppend(out[0]);
        full := ret != 0;
      }
    }

    /** The eight bits of an octet, from the top. */
    method HuffmanOctet(c: Byte) returns (full: bool)
      requires Valid() && phase == Data
      modifies this`filled, this`pos, buffer, fragments
      ensures Shape()
      ensures var m := Decode(old(pos), Bits(c, 8));
        && full == (old(filled) + |m.out| >= setup.size)
        && (!full ==> Valid() && State() == Extended(old(State()), m.out).(pos := m.pos))
    {
      hide Decode, Bits, MoveOn;
      var bits := Bits(c, 8);
      var shifting: Byte := c;
      var n := 0;
      assert bits[..0] == [] && bits[0..] + [] == bits;
      NoBits(pos);
      while n < 8
        invariant 0 <= n <= 8 && Valid() && phase == Data
        invariant Bits(shifting, 8) == bits[n..] + Zeros(n)
        invariant var m := Decode(old(pos), bits[..n]); State() == Extended(old(State()), m.out).(pos := m.pos)
      {
        ghost var m := Decode(old(pos), bits[..n]);
        ShiftedLeft(shifting);
        OneMore(old(pos), bits[..n], bits[n]);
        assert bits[..n + 1] == bits[..n] + [bits[n]];
        var move := MoveOn(pos, shifting / 128);
        OneSymbol(pos, shifting / 128);
        pos := move.pos;
        full := Deliver(move.out);
        ExtendedTwice(old(State()), m.out, move.out);
        if full {
          DecodeAppend(old(pos), bits[..n + 1], bits[n + 1..]);
          assert bits == bits[..n + 1] + bits[n + 1..];
          assert |State().data| == filled && |old(State()).data| == old(filled);
          assert filled == old(filled) + |m.out| + |move.out|;
          assert |Decode(old(pos), bits).out| >= |m.out| + |move.out|;
          return true;
        }
        assert bits[n..] == [bits[n]] + bits[n + 1..];
        assert (bits[n..] + Zeros(n))[1..] + [0] == bits[n + 1..] + Zeros(n + 1);
        shifting := 2 * shifting % 256;
        n := n + 1;
      }
      assert bits[..8] == bits;
      full := false;
    }

    method DataByte(c: Byte) returns (ret: int)
      requires Valid() && phase == Data && len < WRAP
      modifies this`filled, this`pos, this`len, this`nextFrag, this`phase, buffer, fragments
      ensures Shape() && ret == DataOctet(setup, old(State()), c).ret
      ensures ret == 0 ==> Valid() && State() == DataOctet(setup, old(State()), c).view
    {
      hide Decode, Bits, Append, EndOfValue;
      ghost var v := State();
      ghost var m := if huff then Decode(pos, Bits(c, 8)) else Move(pos, [c]);
      Appended(setup, v.(pos := m.pos), m.out);
      if huff {
        var full := HuffmanOctet(c);
        if full { return 1; }
      } else {
        ret := FragAppend(c);
        if ret != 0 { return; }
      }
      assert State() == Extended(v, m.out).(pos := m.pos);
      len := (len - 1) % WRAP;
      ret := 0;
      if len == 0 {
        if setup.tableFull {
          NoRoom(setup, State());
          return 1;
        }
        ret := FragEnd();
      }
    }

    /** One octet of the length or of the value. */
    method Interpret(c: Byte) returns (ret: int)
      requires Valid() && len < WRAP && (phase == HLen || phase == HLenExt || phase == Data)
      modifies this, buffer, fragments
      ensures Shape() && ret == Step(setup, old(State()), c).ret
      ensures ret == 0 ==> Valid() && len < WRAP && State() == Step(setup, old(State()), c).view
    {
      if phase == HLen {
        huff, pos, len := c >= 128, 0, c % 128;
        if len < 127 {
          ret := FragStart();
        } else {
          m, phase := 0, HLenExt;
          ret := 0;
        }
      } else if phase == HLenExt {
        len, m := (len + c % 128 * Pow2(m)) % WRAP, (m + 7) % 256;
        if c < 128 { ret := FragStart(); } else { ret := 0; }
      } else {
        ret := DataByte(c);
      }
    }

    method InterpretAll(octets: seq<Byte>) returns (ret: int)
      requires Valid() && len < WRAP && phase == HLen
      modifies this, buffer, fragments
      ensures Shape() && ret == Run(setup, old(State()), octets).ret
      ensures ret == 0 ==> Valid() && State() == Run(setup, old(State()), octets).view
    {
      hide Step;
      ret := 0;
      var i := 0;
      assert octets[..0] == [] && octets[..|octets|] == octets;
      while i < |octets|
        invariant 0 <= i <= |octets| && Valid() && len < WRAP && ret == 0
        invariant Run(setup, old(State()), octets[..i]) == Out(State(), 0)
      {
        RunFurther(setup, old(State()), octets, i);
        if phase == Type || phase == DiscardPadding {
          NothingFollows(setup, State(), octets[i]);
          return 1;
        }
        ret := Interpret(octets[i]);
        if ret != 0 { return; }
        i := i + 1;
      }
    }
  }

  lemma NoRoom(s: Setup, v: View)
    requires s.tableFull
    ensures EndOfValue(s, v).ret == 1
  {
  }

  lemma NothingFollows(s: Setup, v: View, c: Byte)
    requires v.phase == Type || v.phase == DiscardPadding
    ensures Step(s, v, c).ret == 1
  {
  }

  lemma RunFurther(s: Setup, v: View, octets: seq<Byte>, i: nat)
    requires i < |octets| && Run(s, v, octets[..i]).ret == 0
    ensures var o := Step(s, Run(s, v, octets[..i]).view, octets[i]);
      && (o.ret != 0 ==> Run(s, v, octets).ret == o.ret)
      && (o.ret == 0 ==> Run(s, v, octets[..i + 1]) == o)
  {
    hide Step;
    assert octets == octets[..i] + ([octets[i]] + octets[i + 1..]) && octets[..i + 1] == octets[..i] + [octets[i]];
    RunAppend(s, v, octets[..i], [octets[i]] + octets[i + 1..]);
    RunAppend(s, v, octets[..i], [octets[i]]);
    var w := Run(s, v, octets[..i]).view;
    RunOne(s, w, octets[i], octets[i + 1..]);
    RunOne(s, w, octets[i], []);
    assert [octets[i]] + [] == [octets[i]];
  }

  function Zeros(n: nat): (r: seq<Bit>)
    ensures |r| == n
  {
    seq(n, _ => 0)
  }

  lemma NoBits(pos: nat)
    ensures Decode(pos, []) == Move(pos, [])
  {
  }

  lemma ExtendedTwice(v: View, a: seq<Byte>, b: seq<Byte>)
    ensures forall p, q :: Extended(Extended(v, a).(pos := p), b).(pos := q) == Extended(v, a + b).(pos := q)
  {
    assert v.data + a + b == v.data + (a + b);
  }

  /** Shifting an octet left drops its first bit. */
  lemma ShiftedLeft(c: Byte)
    ensures Bits(2 * c % 256, 8) == Bits(c, 8)[1..] + [0] && Bits(c, 8)[0] == c / 128
  {
    hide Bits;
    var low, top := c % 128, c / 128;
    assert c == 128 * top + low;
    assert 2 * c % 256 == 2 * low;
    BitsGrow(low, 7, 0);
    TopBit(low, top);
  }

  lemma TopBit(low: nat, top: Bit)
    requires low < 128
    ensures Bits(128 * top + low, 8) == [top] + Bits(low, 7)
  {
    hide Bits, Pow2;
    Seven();
    Top(low, top, 7, 128);
  }

  lemma {:induction false} Top(low: nat, top: Bit, n: nat, w: nat)
    requires low < w && w == Pow2(n)
    ensures Bits(w * top + low, n + 1) == [top] + Bits(low, n)
  {
    if n > 0 {
      var half := Pow2(n - 1);
      var x := w * top + low;
      assert w * top == 2 * (half * top);
      assert x / 2 == half * top + low / 2 && x % 2 == low % 2;
      Top(low / 2, top, n - 1, half);
      assert Bits(x, n + 1) == Bits(x / 2, n) + [x % 2];
      assert Bits(low, n) == Bits(low / 2, n - 1) + [low % 2];
    } else {
      assert Bits(top, 1) == Bits(top / 2, 0) + [top % 2];
      assert w * top + low == top;
    }
  }

  lemma AppendOne(s: Setup, v: View, c: Byte)
    ensures var w := Extended(v, [c]); Append(s, v, [c]) == if |w.data| >= s.size then Out(w, 1) else Out(w, 0)
  {
    assert [c][1..] == [];
  }
}
