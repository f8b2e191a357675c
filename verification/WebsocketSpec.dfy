/** What the client's receive machine does with each byte from the server, as a function, and
    what that comes to on sequences of frames (section 5 of RFC 6455). */
module WebsocketSpec {

  type Byte = b: nat | b < 256

  const CONTINUATION := 0
  const TEXT := 1
  const BINARY := 2
  const CLOSE := 8
  const PING := 9
  const PONG := 10

  /** Where the machine is in a frame.  `Len16(2)` and `Len64(8)` await the most significant
      byte of a long length, `Key(0)` the first byte of a mask. */
  datatype Phase = New | HdrLen | Len16(left: nat) | Len64(left: nat) | Key(index: nat) | Payload

  datatype Link = Established | AwaitingCloseAck | ReturnedClose

  /** The machine's state; `held` is what the receive buffer holds, `ping` the payload of the
      ping that waits to be answered. */
  datatype View = View(phase: Phase, opcode: nat, rsv: nat, final: bool, binary: bool, masked: bool,
    zeroNonce: bool, nonce: seq<Byte>, maskIndex: nat, length: nat, held: seq<Byte>,
    pingPending: bool, ping: seq<Byte>, link: Link)

  /** What the machine does to the outside. */
  datatype Event =
    | Receive(data: seq<Byte>, binary: bool)
    | ReceivePong(data: seq<Byte>)
    | SendClose(data: seq<Byte>)
    | AskWritable

  datatype Out = Out(view: View, events: seq<Event>, ret: int)

  /** The receive buffer's size, and the width of the machine's lengths. */
  datatype Setup = Setup(size: nat, lp64: bool)

  function Unmask(c: Byte, key: Byte): Byte {
    ((c as bv8) ^ (key as bv8)) as nat
  }

  function Weight(k: nat): (w: nat)
    ensures w >= 1
  {
    if k == 0 then 1 else 256 * Weight(k - 1)
  }

  // ---- one byte

  predicate Ready(v: View) {
    && |v.nonce| == 4 && (v.phase.Payload? ==> v.length > 0) && (v.phase.Key? ==> v.phase.index < 4)
    && (v.phase.Len16? ==> 1 <= v.phase.left <= 2) && (v.phase.Len64? ==> 1 <= v.phase.left <= 8)
  }

  /** The payload, or as much of it as the buffer holds, is passed on. */
  function Spill(v: View, refuse: bool): (o: Out)
    ensures Ready(v) ==> Ready(o.view)
  {
    var done := v.(held := []);
    if v.opcode == CLOSE then
      if v.link == AwaitingCloseAck then Out(v, [], -1)
      else Out(v.(link := ReturnedClose), [SendClose(v.held)], -1)
    else if v.opcode == PING then
      if v.pingPending || |v.held| > 124 then Out(done, [], 0)
      else Out(done.(ping := v.held, pingPending := true), [AskWritable], 0)
    else if v.opcode == PONG then
      if refuse then Out(v, [ReceivePong(v.held)], 1) else Out(done, [ReceivePong(v.held)], 0)
    else if v.opcode <= BINARY then
      if v.held == [] then Out(done, [], 0)
      else if refuse then Out(v, [Receive(v.held, v.binary)], 1)
      else Out(done, [Receive(v.held, v.binary)], 0)
    else Out(done, [], 0)
  }

  function Start(v: View, refuse: bool): (o: Out)
    ensures |v.nonce| == 4 ==> Ready(o.view)
  {
    if v.length > 0 then Out(v.(phase := Payload), [], 0) else Spill(v.(phase := New), refuse)
  }

  /** The length is known. */
  function Begin(v: View, refuse: bool): (o: Out)
    ensures |v.nonce| == 4 ==> Ready(o.view)
  {
    if v.masked then Out(v.(phase := Key(0)), [], 0) else Start(v, refuse)
  }

  function StepNew(v: View, c: Byte): (o: Out)
    ensures |v.nonce| == 4 ==> Ready(o.view)
  {
    var v' := v.(opcode := c % 16, rsv := c / 16 % 8 * 16, final := c >= 128, phase := HdrLen);
    Out(if c % 16 == TEXT || c % 16 == BINARY then v'.(binary := c % 16 == BINARY) else v', [], 0)
  }

  function StepHdrLen(v: View, c: Byte, refuse: bool): (o: Out)
    requires v.phase.HdrLen?
    ensures |v.nonce| == 4 ==> Ready(o.view)
  {
    var v' := v.(masked := c >= 128);
    if c % 128 >= 126 then
      if v.opcode >= 8 then Out(v', [], -1)
      else Out(v'.(phase := if c % 128 == 126 then Len16(2) else Len64(8)), [], 0)
    else Begin(v'.(length := c), refuse)
  }

  function StepLen16(v: View, c: Byte, refuse: bool): (o: Out)
    requires v.phase.Len16?
    ensures |v.nonce| == 4 ==> Ready(o.view)
  {
    if v.phase.left == 2 then Out(v.(length := 256 * c, phase := Len16(1)), [], 0)
    else Begin(v.(length := v.length + c), refuse)
  }

  function StepLen64(s: Setup, v: View, c: Byte, refuse: bool): (o: Out)
    requires Ready(v) && v.phase.Len64?
    ensures Ready(o.view)
  {
    var k := v.phase.left;
    var part := if k > 4 && !s.lp64 then 0 else c * Weight(k - 1);
    var v' := v.(length := if k >= 8 then part else v.length + part);
    if k >= 8 && c >= 128 then Out(v, [], -1)
    else if k == 1 then Begin(v', refuse)
    else Out(v'.(phase := Len64(k - 1)), [], 0)
  }

  function StepKey(v: View, c: Byte, refuse: bool): (o: Out)
    requires Ready(v) && v.phase.Key?
    ensures Ready(o.view)
  {
    var i := v.phase.index;
    var v' := v.(nonce := v.nonce[i := c], zeroNonce := v.zeroNonce && c == 0);
    if i < 3 then Out(v'.(phase := Key(i + 1)), [], 0) else Start(v', refuse)
  }

  function StepPayload(s: Setup, v: View, c: Byte, refuse: bool): (o: Out)
    requires Ready(v) && v.phase.Payload?
    ensures Ready(o.view)
  {
    var plain := !v.masked || v.zeroNonce;
    var b := if plain then c else Unmask(c, v.nonce[v.maskIndex % 4]);
    var v' := v.(held := v.held + [b], length := v.length - 1,
      maskIndex := if plain then v.maskIndex else v.maskIndex + 1);
    if v'.length == 0 then Spill(v'.(phase := New), refuse)
    else if |v'.held| != s.size then Out(v', [], 0)
    else Spill(v', refuse)
  }

  /** One byte from the server; `refuse` is whether the user wants to close on what it gets. */
  function Step(s: Setup, v: View, c: Byte, refuse: bool): (o: Out)
    requires Ready(v)
    ensures Ready(o.view)
  {
    match v.phase
    case New => StepNew(v, c)
    case HdrLen => StepHdrLen(v, c, refuse)
    case Len16(_) => StepLen16(v, c, refuse)
    case Len64(_) => StepLen64(s, v, c, refuse)
    case Key(_) => StepKey(v, c, refuse)
    case Payload => StepPayload(s, v, c, refuse)
  }

  /** A stretch of bytes, with a user who refuses nothing; a return value other than zero ends
      the connection. */
  function Run(s: Setup, v: View, bytes: seq<Byte>): (o: Out)
    requires Ready(v)
    ensures Ready(o.view)
    decreases |bytes|
  {
    if bytes == [] then Out(v, [], 0)
    else
      var o := Step(s, v, bytes[0], false);
      if o.ret != 0 then o
      else
        var rest := Run(s, o.view, bytes[1..]);
        rest.(events := o.events + rest.events)
  }

  lemma {:induction false} RunAppend(s: Setup, v: View, a: seq<Byte>, b: seq<Byte>)
    requires Ready(v)
    ensures var o := Run(s, v, a);
      Run(s, v, a + b) ==
        if o.ret != 0 then o else var rest := Run(s, o.view, b); rest.(events := o.events + rest.events)
    decreases |a|
  {
    hide Step;
    if a == [] {
      assert a + b == b;
    } else {
      assert (a + b)[0] == a[0] && (a + b)[1..] == a[1..] + b;
      var o := Step(s, v, a[0], false);
      if o.ret == 0 {
        RunAppend(s, o.view, a[1..], b);
        var rest := Run(s, o.view, a[1..]);
        if rest.ret == 0 {
          assert o.events + (rest.events + Run(s, rest.view, b).events) == (o.events + rest.events) + Run(s, rest.view, b).events;
        }
      }
    }
  }

  // ---- frames

  /** The three forms of a payload length; a longer one than needed is read all the same. */
  datatype Form = Short | Medium | Long

  datatype Frame = Frame(final: bool, rsv: nat, opcode: nat, form: Form, payload: seq<Byte>)

  predicate Fits(s: Setup, f: Frame) {
    && f.rsv < 8 && f.opcode < 16 && (f.opcode >= 8 ==> f.form.Short?)
    && match f.form
       case Short => |f.payload| < 126
       case Medium => |f.payload| < Weight(2)
       case Long => |f.payload| < if s.lp64 then 128 * Weight(7) else Weight(4)
  }

  function Digit(n: nat, w: nat): Byte
    requires w > 0 && n < 256 * w
  {
    Divided(n, w);
    n / w
  }

  function Below(n: nat, w: nat): (r: nat)
    requires w > 0
    ensures r < w
  {
    n % w
  }

  lemma Divided(n: nat, w: nat)
    requires w > 0 && n < 256 * w
    ensures n / w < 256 && n == n / w * w + n % w
  {
    var q, r := n / w, n % w;
    assert n == q * w + r;
    Products(q, w, 256);
  }

  lemma Products(q: nat, w: nat, b: nat)
    ensures q * w >= 0 && (q >= b ==> q * w >= b * w)
  {
    if q >= b { assert q * w == b * w + (q - b) * w && (q - b) * w >= 0; }
  }

  /** The `k` bytes of `n`, most significant first. */
  function Digits(n: nat, k: nat): (r: seq<Byte>)
    requires n < Weight(k)
    ensures |r| == k
  {
    if k == 0 then [] else [Digit(n, Weight(k - 1))] + Digits(Below(n, Weight(k - 1)), k - 1)
  }

  lemma LongFits(s: Setup, f: Frame)
    requires Fits(s, f) && f.form.Long?
    ensures |f.payload| < Weight(8)
  {
    assert Weight(8) == 256 * Weight(7) && Weight(7) == 256 * (256 * (256 * Weight(4)));
  }

  function LengthBytes(s: Setup, f: Frame): seq<Byte>
    requires Fits(s, f)
  {
    match f.form
    case Short => [|f.payload|]
    case Medium => [126] + Digits(|f.payload|, 2)
    case Long => LongFits(s, f); [127] + Digits(|f.payload|, 8)
  }

  /** An unmasked frame on the wire. */
  function Wire(s: Setup, f: Frame): seq<Byte>
    requires Fits(s, f)
  {
    [FirstByte(f)] + LengthBytes(s, f) + f.payload
  }

  function FirstByte(f: Frame): Byte
    requires f.rsv < 8 && f.opcode < 16
  {
    (if f.final then 128 else 0) + 16 * f.rsv + f.opcode
  }

  // ---- one frame

  /** The machine after the header of `f`; the type of a message is that of its first frame. */
  function Opened(v: View, f: Frame): View {
    v.(opcode := f.opcode, rsv := 16 * f.rsv, final := f.final, masked := false, length := 0,
       binary := if f.opcode == TEXT || f.opcode == BINARY then f.opcode == BINARY else v.binary)
  }

  /** The payload passed on in pieces that fill the buffer. */
  function Deliver(s: Setup, v: View, all: seq<Byte>): Out
    requires s.size > 0
    decreases |all|
  {
    if |all| <= s.size then Spill(v.(held := all), false)
    else
      var o := Spill(v.(held := all[..s.size]), false);
      var rest := Deliver(s, o.view, all[s.size..]);
      rest.(events := o.events + rest.events)
  }

  lemma RunOne(s: Setup, v: View, c: Byte, rest: seq<Byte>)
    requires Ready(v)
    ensures var o := Step(s, v, c, false);
      Run(s, v, [c] + rest) ==
        if o.ret != 0 then o else var r := Run(s, o.view, rest); r.(events := o.events + r.events)
  {
    assert ([c] + rest)[0] == c && ([c] + rest)[1..] == rest;
  }

  lemma LastOne(s: Setup, v: View, c: Byte)
    requires Ready(v)
    ensures Run(s, v, [c]) == Step(s, v, c, false)
  {
    hide Step;
    var o := Step(s, v, c, false);
    RunOne(s, v, c, []);
    assert [c] + [] == [c] && o.events + [] == o.events;
    if o.ret == 0 { assert Run(s, o.view, []) == Out(o.view, [], 0); }
  }

  /** A byte that shows nothing. */
  lemma QuietStep(s: Setup, v: View, c: Byte, rest: seq<Byte>, v': View)
    requires Ready(v) && Ready(v') && Step(s, v, c, false) == Out(v', [], 0)
    ensures Run(s, v, [c] + rest) == Run(s, v', rest)
  {
    RunOne(s, v, c, rest);
    hide Step, Run;
    var r := Run(s, v', rest);
    assert r.(events := [] + r.events) == r;
  }

  lemma FirstStep(s: Setup, v: View, f: Frame)
    requires Ready(v) && v.phase.New? && f.rsv < 8 && f.opcode < 16
    ensures var o := Step(s, v, FirstByte(f), false);
      o == Out(Opened(v, f).(phase := HdrLen, masked := v.masked, length := v.length), [], 0)
  {
    var c: nat := FirstByte(f);
    assert c % 16 == f.opcode && c / 16 == (if f.final then 8 else 0) + f.rsv;
    assert c / 16 % 8 == f.rsv;
  }

  predicate LongLength(s: Setup, n: nat, k: nat) {
    && 1 <= k <= 8 && n < Weight(k)
    && (k == 8 ==> n < 128 * Weight(7)) && (!s.lp64 ==> n < Weight(4))
  }

  function Base(v: View, k: nat): nat { if k == 8 then 0 else v.length }

  lemma LongRest(s: Setup, n: nat, k: nat)
    requires LongLength(s, n, k) && k > 1
    ensures LongLength(s, Below(n, Weight(k - 1)), k - 1)
  {
    LongDigit(s, n, k);
  }

  lemma LongStep(s: Setup, v: View, c: Byte, part: nat)
    requires Ready(v) && !v.masked && v.phase.Len64?
    requires part == c * Weight(v.phase.left - 1) && (v.phase.left > 4 && !s.lp64 ==> c == 0)
    requires v.phase.left == 8 ==> c < 128
    ensures var k := v.phase.left;
      Step(s, v, c, false) ==
        if k == 1 then Start(v.(length := Base(v, 1) + part), false)
        else Out(v.(length := Base(v, k) + part, phase := Len64(k - 1)), [], 0)
  {
    hide Weight, Start;
  }

  lemma DigitsOf(n: nat, k: nat)
    requires k > 0 && n < Weight(k)
    ensures var w := Weight(k - 1); var c, rest := Digit(n, w), Below(n, w);
      Digits(n, k) == if k == 1 then [c] else [c] + Digits(rest, k - 1)
    ensures k == 1 ==> Below(n, Weight(0)) == 0
  {
  }

  lemma LongBounds(s: Setup, n: nat, k: nat)
    requires LongLength(s, n, k)
    ensures 1 <= k <= 8 && n < Weight(k) && Weight(k) == 256 * Weight(k - 1)
    ensures (k == 8 ==> n < 128 * Weight(k - 1)) && (k > 4 && !s.lp64 ==> n < Weight(k - 1))
  {
    if k > 4 { WeightGrows(4, k - 1); }
  }

  /** The bytes of a long length add up to it. */
  lemma {:induction false} LongRun(s: Setup, v: View, n: nat, k: nat)
    requires Ready(v) && !v.masked && v.phase == Len64(k) && LongLength(s, n, k)
    ensures Run(s, v, Digits(n, k)) == Start(v.(length := Base(v, k) + n), false)
    decreases k
  {
    hide Step, Start, Weight, Digits, Digit, Below, LongLength, Run;
    LongBounds(s, n, k);
    var w := Weight(k - 1);
    var c, rest := Digit(n, w), Below(n, w);
    LongDigit(s, n, k);
    DigitsOf(n, k);
    if k > 1 { LongRest(s, n, k); }
    LongStep(s, v, c, n - rest);
    if k == 1 {
      LastOne(s, v, c);
    } else {
      var v' := v.(length := Base(v, k) + (n - rest), phase := Len64(k - 1));
      LongRun(s, v', rest, k - 1);
      QuietStep(s, v, c, Digits(rest, k - 1), v');
      StartAnywhere(v'.(length := Base(v', k - 1) + rest), v.(length := Base(v, k) + n));
    }
    assert Run(s, v, Digits(n, k)) == Start(v.(length := Base(v, k) + n), false);
  }

  lemma StartAnywhere(v: View, w: View)
    requires v.(phase := New) == w.(phase := New)
    ensures Start(v, false) == Start(w, false)
  {
    assert v.(phase := Payload) == v.(phase := New).(phase := Payload) == w.(phase := Payload);
  }

  lemma LongDigit(s: Setup, n: nat, k: nat)
    requires LongLength(s, n, k)
    ensures var w := Weight(k - 1); var c, rest := Digit(n, w), Below(n, w);
      && n == c * w + rest && rest <= n
      && (k > 4 && !s.lp64 ==> c == 0) && (k == 8 ==> c < 128)
  {
    LongBounds(s, n, k);
    hide Weight, LongLength;
    var w := Weight(k - 1);
    Divided(n, w);
    Products(n / w, w, 1);
    Products(n / w, w, 128);
  }

  lemma {:induction false} WeightGrows(a: nat, b: nat)
    requires a <= b
    ensures Weight(a) <= Weight(b)
    decreases b
  {
    if a < b { WeightGrows(a, b - 1); }
  }

  /** A length in any of the three forms. */
  lemma LengthRun(s: Setup, v: View, f: Frame)
    requires Ready(v) && v.phase.HdrLen? && Fits(s, f) && v.opcode == f.opcode
    ensures Run(s, v, LengthBytes(s, f)) == Start(v.(masked := false, length := |f.payload|), false)
  {
    match f.form
    case Short => ShortRun(s, v, f);
    case Medium => MediumRun(s, v, f);
    case Long => LongFormRun(s, v, f);
  }

  lemma ShortRun(s: Setup, v: View, f: Frame)
    requires Ready(v) && v.phase.HdrLen? && Fits(s, f) && v.opcode == f.opcode && f.form.Short?
    ensures Run(s, v, LengthBytes(s, f)) == Start(v.(masked := false, length := |f.payload|), false)
  {
    hide Run, Start, Weight;
    LastOne(s, v, |f.payload|);
  }

  lemma LongFormRun(s: Setup, v: View, f: Frame)
    requires Ready(v) && v.phase.HdrLen? && Fits(s, f) && v.opcode == f.opcode && f.form.Long?
    ensures Run(s, v, LengthBytes(s, f)) == Start(v.(masked := false, length := |f.payload|), false)
  {
    hide Run, Start, Digits;
    LongFits(s, f);
    var n := |f.payload|;
    var v' := v.(masked := false, phase := Len64(8));
    assert Step(s, v, 127, false) == Out(v', [], 0);
    assert Weight(8) == 256 * Weight(7) && Weight(7) >= Weight(4) by { WeightGrows(4, 7); }
    assert LongLength(s, n, 8);
    hide Step, Weight, LongLength;
    LongRun(s, v', n, 8);
    QuietStep(s, v, 127, Digits(n, 8), v');
    StartAnywhere(v'.(length := n), v.(masked := false, length := n));
  }

  lemma MediumRun(s: Setup, v: View, f: Frame)
    requires Ready(v) && v.phase.HdrLen? && Fits(s, f) && v.opcode == f.opcode && f.form.Medium?
    ensures Run(s, v, LengthBytes(s, f)) == Start(v.(masked := false, length := |f.payload|), false)
  {
    var n := |f.payload|;
    assert Weight(1) == 256 && Weight(0) == 1;
    Divided(n, Weight(1));
    var hi, lo := Digit(n, Weight(1)), Below(n, Weight(1));
    Divided(lo, Weight(0));
    assert Digits(n, 2) == [hi] + Digits(lo, 1) && Digits(lo, 1) == [lo] + Digits(Below(lo, 1), 0) == [lo];
    var v1 := v.(masked := false, phase := Len16(2));
    var high: nat := hi;
    var v2 := v1.(length := 256 * high, phase := Len16(1));
    assert Step(s, v, 126, false) == Out(v1, [], 0) && Step(s, v1, hi, false) == Out(v2, [], 0);
    assert Step(s, v2, lo, false) == Start(v.(masked := false, length := n), false);
    assert [126] + Digits(n, 2) == [126] + ([hi] + [lo]);
    hide Step, Start, Digits, Run, Weight;
    QuietStep(s, v, 126, [hi] + [lo], v1);
    QuietStep(s, v1, hi, [lo], v2);
    LastOne(s, v2, lo);
  }

  lemma PayloadStep(s: Setup, v: View, c: Byte)
    requires Ready(v) && v.phase.Payload? && !v.masked
    ensures var v' := v.(held := v.held + [c], length := v.length - 1);
      Step(s, v, c, false) ==
        if v.length == 1 then Spill(v'.(phase := New), false)
        else if |v.held| + 1 != s.size then Out(v', [], 0)
        else Spill(v', false)
  {
    hide Spill;
  }

  /** A full buffer passed on in the middle of a frame. */
  lemma SpillMidway(s: Setup, v: View, w: View)
    requires v.opcode < 8 && w == v.(phase := New, length := 0)
    ensures var o, p := Spill(v, false), Spill(w, false);
      && o.ret == 0 == p.ret && o.events == p.events && o.view == v.(held := []) && p.view == w.(held := [])
  {
  }

  /** A payload read byte by byte is delivered in pieces that fill the buffer. */
  lemma {:induction false} PayloadRun(s: Setup, v: View, bytes: seq<Byte>)
    requires Ready(v) && v.phase.Payload? && !v.masked && |v.held| < s.size
    requires v.length == |bytes| && (v.opcode < 8 || |v.held| + |bytes| <= s.size)
    ensures Run(s, v, bytes) == Deliver(s, v.(phase := New, length := 0), v.held + bytes)
    decreases |bytes|
  {
    var c, rest := bytes[0], bytes[1..];
    var all := v.held + bytes;
    assert bytes == [c] + rest && all == v.held + [c] + rest;
    var v' := v.(held := v.held + [c], length := v.length - 1);
    var done := v.(phase := New, length := 0);
    PayloadStep(s, v, c);
    hide Step, Spill, Run, Deliver;
    if rest == [] {
      LastOne(s, v, c);
      DeliverAll(s, done, all);
      assert all == v'.held && v'.(phase := New) == done.(held := all) && bytes == [c];
    } else if |v'.held| < s.size {
      PayloadRun(s, v', rest);
      QuietStep(s, v, c, rest, v');
      DeliverHeld(s, v'.(phase := New, length := 0), done, all);
    } else {
      RunOne(s, v, c, rest);
      DeliverPart(s, done, all);
      assert all[..s.size] == v'.held && all[s.size..] == rest;
      SpillMidway(s, v', done.(held := v'.held));
      var next := v'.(held := []);
      PayloadRun(s, next, rest);
      assert next.held + rest == rest;
      DeliverHeld(s, next.(phase := New, length := 0), done.(held := []), rest);
    }
  }

  lemma DeliverAll(s: Setup, v: View, all: seq<Byte>)
    requires 0 < s.size && |all| <= s.size
    ensures Deliver(s, v, all) == Spill(v.(held := all), false)
  {
  }

  lemma DeliverPart(s: Setup, v: View, all: seq<Byte>)
    requires 0 < s.size < |all|
    ensures var o := Spill(v.(held := all[..s.size]), false); var rest := Deliver(s, o.view, all[s.size..]);
      Deliver(s, v, all) == rest.(events := o.events + rest.events)
  {
  }

  /** What the buffer holds beforehand is no part of the delivery. */
  lemma DeliverHeld(s: Setup, v: View, w: View, all: seq<Byte>)
    requires s.size > 0 && v.(held := []) == w.(held := [])
    ensures Deliver(s, v, all) == Deliver(s, w, all)
  {
    assert v.(held := all) == v.(held := []).(held := all) == w.(held := all);
    if |all| > s.size {
      var part := all[..s.size];
      assert v.(held := part) == v.(held := []).(held := part) == w.(held := part);
    }
  }

  /** The first bytes of a frame, up to its payload. */
  lemma HeaderRun(s: Setup, v: View, f: Frame)
    requires Ready(v) && v.phase.New? && Fits(s, f)
    ensures Run(s, v, [FirstByte(f)] + LengthBytes(s, f)) ==
      Start(Opened(v, f).(phase := HdrLen, length := |f.payload|), false)
  {
    hide Run, Step, Start, LengthBytes;
    var v1 := Opened(v, f).(phase := HdrLen, masked := v.masked, length := v.length);
    FirstStep(s, v, f);
    LengthRun(s, v1, f);
    QuietStep(s, v, FirstByte(f), LengthBytes(s, f), v1);
  }

  /** A frame, read from its first byte to its last. */
  lemma FrameRun(s: Setup, v: View, f: Frame)
    requires Ready(v) && v.phase.New? && v.held == [] && s.size >= 125 && Fits(s, f)
    ensures Run(s, v, Wire(s, f)) == Deliver(s, Opened(v, f), f.payload)
  {
    var header := [FirstByte(f)] + LengthBytes(s, f);
    var begun := Opened(v, f);
    var v2 := begun.(phase := HdrLen, length := |f.payload|);
    assert Wire(s, f) == header + f.payload;
    assert f.opcode < 8 || |f.payload| <= 125;
    HeaderRun(s, v, f);
    RunAppend(s, v, header, f.payload);
    if f.payload == [] {
      NoPayload(s, v2, begun);
      assert header + [] == header;
    } else {
      assert Start(v2, false) == Out(v2.(phase := Payload), [], 0);
      hide Run, Step, Start, Deliver, LengthBytes, Fits;
      WholePayload(s, v2.(phase := Payload), begun, f.payload);
    }
  }

  lemma WholePayload(s: Setup, v: View, done: View, payload: seq<Byte>)
    requires Ready(v) && v.phase.Payload? && v.held == [] && !v.masked && s.size >= 125 && payload != []
    requires v.length == |payload| && (v.opcode < 8 || |payload| <= 125) && done == v.(phase := New, length := 0)
    ensures var r := Run(s, v, payload); r == Deliver(s, done, payload) && r.(events := [] + r.events) == r
  {
    hide Run, Step, Deliver;
    PayloadRun(s, v, payload);
    assert v.held + payload == payload;
  }

  lemma NoPayload(s: Setup, v: View, w: View)
    requires s.size > 0 && v.length == 0 && v.held == [] && w == v.(phase := New)
    ensures Start(v, false) == Deliver(s, w, [])
  {
    hide Spill;
    assert w.(held := []) == v.(phase := New);
  }
}
