/** Decoding Huffman-coded strings bit by bit and octet by octet (section 5.2 of RFC 7541). */
module Huffman {
  import opened HuffmanTables
  import opened HuffmanTrie

  type Byte = b: nat | b < 256

  type Bit = b: nat | b < 2

  /** One bit: the next position, and the symbol if a place marked terminal was met. */
  datatype Move = Move(pos: nat, out: seq<Byte>)

  function HuftableDecode(pos: nat, b: Bit): nat {
    var q := pos + b;
    if Terminal(q) then Lextable(q) % 0x8000 + 0x8000 else pos + 2 * Lextable(q)
  }

  function MoveOn(pos: nat, b: Bit): Move {
    var next := HuftableDecode(pos, b);
    if next / 0x8000 % 2 == 0 then Move(next, []) else Move(0, [next % 0x8000 % 256])
  }

  function Decode(pos: nat, bits: seq<Bit>): Move
    decreases |bits|
  {
    if bits == [] then Move(pos, [])
    else
      var m := MoveOn(pos, bits[0]);
      var rest := Decode(m.pos, bits[1..]);
      rest.(out := m.out + rest.out)
  }

  lemma {:induction false} DecodeAppend(pos: nat, a: seq<Bit>, b: seq<Bit>)
    ensures var m := Decode(pos, a);
      Decode(pos, a + b) == var rest := Decode(m.pos, b); rest.(out := m.out + rest.out)
    decreases |a|
  {
    hide MoveOn;
    if a == [] {
      assert a + b == b;
    } else {
      assert (a + b)[0] == a[0] && (a + b)[1..] == a[1..] + b;
      var m := MoveOn(pos, a[0]);
      DecodeAppend(m.pos, a[1..], b);
      var rest := Decode(m.pos, a[1..]);
      assert m.out + (rest.out + Decode(rest.pos, b).out) == (m.out + rest.out) + Decode(rest.pos, b).out;
    }
  }

  /** The last `n` bits of `c`, most significant first. */
  function Bits(c: nat, n: nat): (r: seq<Bit>)
    ensures |r| == n
  {
    if n == 0 then [] else Bits(c / 2, n - 1) + [c % 2]
  }

  // ---- the code

  lemma OneMore(pos: nat, bits: seq<Bit>, b: Bit)
    ensures var m := Decode(pos, bits); var n := MoveOn(m.pos, b);
      Decode(pos, bits + [b]) == Move(n.pos, m.out + n.out)
  {
    hide MoveOn;
    DecodeAppend(pos, bits, [b]);
    var m := Decode(pos, bits);
    var n := MoveOn(m.pos, b);
    assert [b][1..] == [];
    assert n.out + [] == n.out;
  }

  /** The path of a state leads to it and meets no symbol. */
  lemma {:induction false} PathDecodes(i: nat)
    requires i < 256
    ensures Decode(0, Bits(PathCode(i), PathLength(i))) == Move(2 * i, [])
    decreases i
  {
    hide PathCode, PathLength, Terminal, Lextable;
    if i == 0 {
      Root();
    } else {
      AllNodes(i);
      var p, b :| Node(i, p, b);
      PathDecodes(p);
      StepTo(i, p, b);
      OneMore(0, Bits(PathCode(p), PathLength(p)), b);
    }
  }

  lemma Root()
    ensures PathCode(0) == 0 && PathLength(0) == 0
  {
  }

  lemma BitsGrow(c: nat, n: nat, b: Bit)
    ensures Bits(2 * c + b, n + 1) == Bits(c, n) + [b]
  {
    assert (2 * c + b) / 2 == c && (2 * c + b) % 2 == b;
  }

  lemma Decoded(pos: nat, b: Bit)
    ensures var next := HuftableDecode(pos, b);
      if Terminal(pos + b) then next == Lextable(pos + b) % 0x8000 + 0x8000 else next == pos + 2 * Lextable(pos + b)
  {
  }

  lemma Moved(pos: nat, b: Bit)
    ensures var next := HuftableDecode(pos, b);
      0x8000 <= next < 0x1_0000 ==> MoveOn(pos, b) == Move(0, [next % 256])
    ensures HuftableDecode(pos, b) < 0x8000 ==> MoveOn(pos, b) == Move(HuftableDecode(pos, b), [])
  {
    hide HuftableDecode;
    var next := HuftableDecode(pos, b);
    if 0x8000 <= next < 0x1_0000 { assert next / 0x8000 == 1 && next % 0x8000 == next - 0x8000; }
  }

  lemma StepTo(i: nat, p: nat, b: nat)
    requires Node(i, p, b) && i < 256
    ensures MoveOn(2 * p, b) == Move(2 * i, [])
    ensures Bits(PathCode(i), PathLength(i)) == Bits(PathCode(p), PathLength(p)) + [b]
  {
    hide PathCode, PathLength, Terminal, Lextable, HuftableDecode, MoveOn, Bits;
    Decoded(2 * p, b);
    Moved(2 * p, b);
    BitsGrow(PathCode(p), PathLength(p), b);
  }

  lemma Arrive(s: nat, p: nat, b: nat)
    requires Symbol(s, p, b)
    ensures MoveOn(2 * p, b) == Move(0, [s % 256])
    ensures Bits(Code(s), Length(s)) == Bits(PathCode(p), PathLength(p)) + [b]
  {
    hide PathCode, PathLength, Terminal, Lextable, Code, Length, HuftableDecode, MoveOn, Bits;
    Decoded(2 * p, b);
    Moved(2 * p, b);
    BitsGrow(PathCode(p), PathLength(p), b);
  }

  /** The code of a symbol, of Appendix B, decodes to that symbol and nothing else; the code of
      the end of a string passes for that of 0. */
  lemma SymbolDecodes(s: nat)
    requires s <= 256
    ensures Decode(0, Bits(Code(s), Length(s))) == Move(0, [s % 256])
  {
    hide PathCode, PathLength, Terminal, Lextable, Code, Length;
    AllSymbols(s);
    var p, b :| Symbol(s, p, b);
    PathDecodes(p);
    Arrive(s, p, b);
    OneMore(0, Bits(PathCode(p), PathLength(p)), b);
  }

  lemma MoveInside(i: nat, b: Bit)
    requires i < 256
    ensures var m := MoveOn(2 * i, b); m.pos % 2 == 0 && m.pos < 512
  {
    hide Lextable, Terminal, HuftableDecode, MoveOn;
    AllBounded(i);
    var q := 2 * i + b;
    assert Inside(q) && q / 2 == i;
    Decoded(2 * i, b);
    Moved(2 * i, b);
  }

  /** No bits whatever lead outside the table. */
  lemma {:induction false} StaysInside(i: nat, bits: seq<Bit>)
    requires i < 256
    ensures Decode(2 * i, bits).pos % 2 == 0 && Decode(2 * i, bits).pos < 512
    decreases |bits|
  {
    hide MoveOn;
    if bits != [] {
      MoveInside(i, bits[0]);
      StaysInside(MoveOn(2 * i, bits[0]).pos / 2, bits[1..]);
    }
  }

  /** No bit completes more than one symbol. */
  lemma {:induction false} SymbolsBounded(pos: nat, bits: seq<Bit>)
    ensures |Decode(pos, bits).out| <= |bits|
    decreases |bits|
  {
    hide MoveOn;
    if bits != [] {
      OneSymbol(pos, bits[0]);
      SymbolsBounded(MoveOn(pos, bits[0]).pos, bits[1..]);
    }
  }

  lemma OneSymbol(pos: nat, b: Bit)
    ensures |MoveOn(pos, b).out| <= 1
  {
    hide HuftableDecode;
  }

  /** A byte, or 256 for the end of a string. */
  type CodeSymbol = s: nat | s <= 256

  const EOS: CodeSymbol := 256

  function Encode(s: seq<CodeSymbol>): seq<Bit> {
    if s == [] then [] else Encode(s[..|s| - 1]) + Bits(Code(s[|s| - 1]), Length(s[|s| - 1]))
  }

  /** What the decoder delivers for some symbols. */
  function Delivered(s: seq<CodeSymbol>): (r: seq<Byte>)
    ensures |r| == |s| && forall i :: 0 <= i < |s| ==> r[i] == s[i] % 256
  {
    seq(|s|, i requires 0 <= i < |s| => s[i] % 256)
  }

  /** The codes of any symbols, the end of a string among them, are decoded to what the symbols
      deliver. */
  lemma {:induction false} SymbolsDecode(s: seq<CodeSymbol>)
    ensures Decode(0, Encode(s)) == Move(0, Delivered(s))
    decreases |s|
  {
    hide Code, Length, Bits, MoveOn;
    if s != [] {
      var front, last := s[..|s| - 1], s[|s| - 1];
      SymbolsDecode(front);
      SymbolDecodes(last);
      DecodeAppend(0, Encode(front), Bits(Code(last), Length(last)));
      assert Delivered(s) == Delivered(front) + [last % 256];
    }
  }

  /** Codes decode to the symbols they stand for exactly when the end of a string is not among
      them; a string that holds it should be refused (section 5.2) and is delivered instead,
      with a zero in its place. */
  lemma DecodesFaithfullyIff(s: seq<CodeSymbol>)
    ensures Decode(0, Encode(s)).out == s <==> EOS !in s
    ensures |Decode(0, Encode(s)).out| == |s|
    ensures forall i :: 0 <= i < |s| && s[i] == EOS ==> Decode(0, Encode(s)).out[i] == 0
  {
    hide Decode, Encode;
    SymbolsDecode(s);
    var out := Delivered(s);
    if EOS !in s {
      assert forall i :: 0 <= i < |s| ==> s[i] != EOS && out[i] == s[i];
    } else {
      var i :| 0 <= i < |s| && s[i] == EOS;
      assert out[i] != s[i];
    }
  }

  lemma BytesDelivered(s: seq<Byte>)
    ensures Delivered(s) == s
  {
  }

  lemma StringDecodes(s: seq<Byte>)
    ensures Decode(0, Encode(s)) == Move(0, s)
  {
    hide *;
    SymbolsDecode(s);
    BytesDelivered(s);
  }

  function Ones(k: nat): (r: seq<Bit>)
    ensures |r| == k
  {
    if k == 0 then [] else Ones(k - 1) + [1]
  }

  /** Padding of up to seven ones meets no symbol. */
  lemma {:induction false} PaddingQuiet(k: nat)
    requires k < 8
    ensures Decode(0, Ones(k)) == Move(2 * k, [])
  {
    hide MoveOn;
    if k > 0 {
      PaddingQuiet(k - 1);
      OneStep(k - 1);
      OneMore(0, Ones(k - 1), 1);
    }
  }

  lemma OneStep(k: nat)
    requires k < 7
    ensures MoveOn(2 * k, 1) == Move(2 * (k + 1), [])
  {
    match k {
      case 0 => assert Node(1, 0, 1);
      case 1 => assert Node(2, 1, 1);
      case 2 => assert Node(3, 2, 1);
      case 3 => assert Node(4, 3, 1);
      case 4 => assert Node(5, 4, 1);
      case 5 => assert Node(6, 5, 1);
      case _ => assert Node(7, 6, 1);
    }
    hide PathCode, PathLength, Terminal, Lextable;
    StepTo(k + 1, k, 1);
  }

  /** Thirty ones end a string and must never be decoded (section 5.2); the decoder sees where
      it is and delivers a zero for them all the same. */
  lemma EndOfStringDelivered()
    ensures Decode(0, Bits(0x1fffffff, 29)) == Move(HUFTABLE_0X100_PREV, [])
    ensures Decode(0, Bits(0x3fffffff, 30)) == Move(0, [0])
  {
    assert Code(256) == 0x3fffffff && Length(256) == 30;
    assert PathCode(59) == 0x1fffffff && PathLength(59) == 29;
    hide *;
    PathDecodes(59);
    SymbolDecodes(256);
    assert HUFTABLE_0X100_PREV == 118;
  }

  // ---- octets

  /** The bits of some octets, in the order they are sent. */
  function AllBits(octets: seq<Byte>): seq<Bit> {
    if octets == [] then [] else Bits(octets[0], 8) + AllBits(octets[1..])
  }

  function Value(bits: seq<Bit>): nat {
    if bits == [] then 0 else 2 * Value(bits[..|bits| - 1]) + bits[|bits| - 1]
  }

  lemma {:induction false} ValueBack(bits: seq<Bit>)
    ensures Bits(Value(bits), |bits|) == bits
  {
    if bits != [] {
      var front, last := bits[..|bits| - 1], bits[|bits| - 1];
      ValueBack(front);
      BitsGrow(Value(front), |front|, last);
      assert bits == front + [last];
    }
  }

  function OctetOf(bits: seq<Bit>): (c: Byte)
    requires |bits| == 8
    ensures Bits(c, 8) == bits
  {
    ValueBack(bits);
    EightBits(bits);
    Value(bits)
  }

  lemma {:induction false} EightBits(bits: seq<Bit>)
    ensures |bits| <= 8 ==> Value(bits) < 256
    ensures |bits| <= 7 ==> Value(bits) < 128
    ensures |bits| <= 6 ==> Value(bits) < 64
    ensures |bits| <= 5 ==> Value(bits) < 32
    ensures |bits| <= 4 ==> Value(bits) < 16
    ensures |bits| <= 3 ==> Value(bits) < 8
    ensures |bits| <= 2 ==> Value(bits) < 4
    ensures |bits| <= 1 ==> Value(bits) < 2
    ensures |bits| <= 0 ==> Value(bits) < 1
  {
    if bits != [] { EightBits(bits[..|bits| - 1]); }
  }

  function Pack(bits: seq<Bit>): (octets: seq<Byte>)
    requires |bits| % 8 == 0
    decreases |bits|
  {
    if bits == [] then [] else [OctetOf(bits[..8])] + Pack(bits[8..])
  }

  lemma {:induction false} PackBack(bits: seq<Bit>)
    requires |bits| % 8 == 0
    ensures AllBits(Pack(bits)) == bits
    decreases |bits|
  {
    if bits != [] {
      PackBack(bits[8..]);
      assert bits == bits[..8] + bits[8..];
    }
  }

  /** The octets of a Huffman-coded string, the last one padded with ones. */
  function Coded(s: seq<Byte>): seq<Byte> {
    var bits := Encode(s);
    Pack(bits + Ones((8 - |bits| % 8) % 8))
  }

  lemma CodedNothing()
    ensures Coded([]) == []
  {
  }

  lemma CodedDecodes(s: seq<Byte>)
    ensures Decode(0, AllBits(Coded(s))).out == s
  {
    hide Decode, Encode, Pack, AllBits, Ones;
    var bits := Encode(s);
    var k := (8 - |bits| % 8) % 8;
    PackBack(bits + Ones(k));
    StringDecodes(s);
    PaddingQuiet(k);
    DecodeAppend(0, bits, Ones(k));
    assert s + [] == s;
  }
}
