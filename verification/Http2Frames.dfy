/** The HTTP/2 frame layer: what the parser does with each byte, as a function, and what that
    comes to on sequences of frames (section 4.1 of RFC 7540). */
module Http2Frames {
  import opened Registers

  type Byte = b: nat | b < 256

  const DATA := 0
  const HEADERS := 1
  const SETTINGS := 4
  const PING := 6
  const GOAWAY := 7
  const WINDOW_UPDATE := 8
  const CONTINUATION := 9
  const HEADER_LENGTH := 9

  /** The flag END_HEADERS has the value 4. */
  predicate EndHeaders(flags: nat) { flags / 4 % 2 == 1 }

  datatype Header = Header(length: nat, kind: nat, flags: nat, sid: nat)

  /** The parser's state.  `credits` holds what may still be sent on the connection, at 0, and on
      every stream there is a connection for; `dep` collects a number from a payload; the peer's
      initial window becomes the credit of the connection with the first frame that ends. */
  datatype View = View(frameState: nat, count: nat, header: Header, endHeaders: bool,
    credits: map<nat, int>, dep: nat, initialized: bool, peerWindow: int)

  datatype Event = Opened(header: Header) | Body(c: Byte) | Closed

  datatype Out = Out(view: View, events: seq<Event>, ret: int)

  /** What the layers above answer: whether a new stream can be made, whether the header block
      reads well so far. */
  datatype Answer = Answer(created: bool, block: bool)

  const AGREE := Answer(true, true)

  const INITIAL_CREDIT := 65535

  /** No value the parser returns: it follows the link to a stream that is not there. */
  const FAULT := -1

  function Shifted(n: nat, c: Byte): nat { (256 * n + c) % 0x1_0000_0000 }

  function HeaderByte(v: View, c: Byte): View {
    var h := v.header;
    v.(frameState := v.frameState + 1, header :=
      match v.frameState
      case 0 => h.(length := c)
      case 1 => h.(length := Shifted(h.length, c))
      case 2 => h.(length := Shifted(h.length, c))
      case 3 => h.(kind := c)
      case 4 => h.(flags := c)
      case _ => h.(sid := Shifted(h.sid, c)))
  }

  /** Whether a frame may come, by its header alone. */
  predicate Accepted(v: View, h: Header, created: bool) {
    if h.kind == SETTINGS then h.sid == 0
    else if h.kind == PING then h.sid == 0 && h.length == 8
    else if h.kind == CONTINUATION then !v.endHeaders && (h.sid == 0 || h.sid in v.credits)
    else if h.kind == HEADERS then h.sid != 0 && (h.sid in v.credits || created)
    else if h.kind == WINDOW_UPDATE then h.length == 4
    else true
  }

  function WithStream(credits: map<nat, int>, sid: nat): map<nat, int> {
    if sid in credits then credits else credits[sid := INITIAL_CREDIT]
  }

  function OpenFrame(v: View, created: bool): Out {
    var h := v.header;
    var w := v.(count := 0,
      credits := if h.kind == HEADERS && h.sid != 0 && created then WithStream(v.credits, h.sid) else v.credits,
      endHeaders := if h.kind == HEADERS || h.kind == CONTINUATION then EndHeaders(h.flags) else v.endHeaders);
    var late := (h.kind == HEADERS && h.sid != 0) || (h.kind == CONTINUATION && !v.endHeaders);
    if !Accepted(v, h, created) then
      Out(v.(count := 0, endHeaders := if late then EndHeaders(h.flags) else v.endHeaders), [Opened(h)], 1)
    else Out(if h.length == 0 then w.(frameState := 0) else w, [Opened(h)], 0)
  }

  /** A payload byte is for the frame's stream, which has to be there. */
  predicate HasStream(v: View) { v.header.sid == 0 || v.header.sid in v.credits }

  function DepByte(kind: nat, count: nat, dep: nat, c: Byte): nat {
    if kind == WINDOW_UPDATE || (kind == GOAWAY && 5 <= count <= 8) then Shifted(dep, c) else dep
  }

  /** A credit after a WINDOW_UPDATE of `inc`, or an error.  The sum is compared as an unsigned
      number, so one that stays negative counts as too large. */
  function Credited(credit: int, inc: nat): (r: (bool, int)) {
    var add := inc % 0x8000_0000;
    var sum := (credit + add) % 0x1_0000_0000_0000_0000;
    if sum > 0x7fff_ffff then (false, credit) else (true, credit + add)
  }

  function EndOfFrame(v: View): Out
    requires Ready(v) && HasStream(v)
  {
    var w := v.(frameState := 0, count := 0, initialized := true,
      credits := if v.initialized then v.credits else v.credits[0 := v.peerWindow]);
    var sid := v.header.sid;
    if v.header.kind != WINDOW_UPDATE then Out(w, [Closed], 0)
    else
      var x := w.(dep := v.dep % 0x8000_0000);
      var (taken, credit) := Credited(w.credits[sid], v.dep);
      if taken then Out(x.(credits := w.credits[sid := credit]), [Closed], 0) else Out(x, [Closed], 1)
  }

  function PayloadByte(v: View, c: Byte, a: Answer): Out
    requires Ready(v)
  {
    var h := v.header;
    var w := v.(count := v.count + 1, dep := DepByte(h.kind, v.count + 1, v.dep, c));
    if !HasStream(v) then Out(v, [], FAULT)
    else if (h.kind == HEADERS || h.kind == CONTINUATION) && !a.block then Out(w, [Body(c)], 1)
    else if w.count != h.length then Out(w, [Body(c)], 0)
    else
      var o := EndOfFrame(w);
      o.(events := [Body(c)] + o.events)
  }

  predicate Ready(v: View) { v.frameState <= HEADER_LENGTH && 0 in v.credits }

  function Step(v: View, c: Byte, a: Answer): (o: Out)
    requires Ready(v)
    ensures Ready(o.view)
  {
    if v.frameState == HEADER_LENGTH then PayloadByte(v, c, a)
    else
      var w := HeaderByte(v, c);
      if w.frameState == HEADER_LENGTH then OpenFrame(w, a.created) else Out(w, [], 0)
  }

  /** A stretch of bytes, when the layers above agree to everything. */
  function Run(v: View, bytes: seq<Byte>): (o: Out)
    requires Ready(v)
    ensures Ready(o.view)
    decreases |bytes|
  {
    if bytes == [] then Out(v, [], 0)
    else
      var o := Step(v, bytes[0], AGREE);
      if o.ret != 0 then o
      else
        var rest := Run(o.view, bytes[1..]);
        rest.(events := o.events + rest.events)
  }

  lemma RunOne(v: View, c: Byte, rest: seq<Byte>)
    requires Ready(v)
    ensures var o := Step(v, c, AGREE);
      Run(v, [c] + rest) ==
        if o.ret != 0 then o else var r := Run(o.view, rest); r.(events := o.events + r.events)
  {
    assert ([c] + rest)[0] == c && ([c] + rest)[1..] == rest;
  }

  lemma {:induction false} RunAppend(v: View, a: seq<Byte>, b: seq<Byte>)
    requires Ready(v)
    ensures var o := Run(v, a);
      Run(v, a + b) ==
        if o.ret != 0 then o else var rest := Run(o.view, b); rest.(events := o.events + rest.events)
    decreases |a|
  {
    if a == [] {
      assert a + b == b;
    } else {
      hide Step;
      assert a + b == [a[0]] + (a[1..] + b);
      var o := Step(v, a[0], AGREE);
      RunOne(v, a[0], a[1..] + b);
      if o.ret == 0 {
        RunAppend(o.view, a[1..], b);
        var rest := Run(o.view, a[1..]);
        if rest.ret == 0 {
          assert o.events + (rest.events + Run(rest.view, b).events) == (o.events + rest.events) + Run(rest.view, b).events;
        }
      }
    }
  }

  // ---- headers

  predicate Fits(h: Header) {
    h.length < 0x100_0000 && h.kind < 256 && h.flags < 256 && h.sid < 0x1_0000_0000
  }

  function Digit(n: nat, weight: nat): Byte
    requires weight > 0
  {
    n / weight % 256
  }

  /** The nine bytes the sender writes. */
  function HeaderBytes(h: Header): (r: seq<Byte>)
    ensures |r| == HEADER_LENGTH
  {
    [Digit(h.length, 0x1_0000), Digit(h.length, 0x100), Digit(h.length, 1), Digit(h.kind, 1), Digit(h.flags, 1),
     Digit(h.sid, 0x100_0000), Digit(h.sid, 0x1_0000), Digit(h.sid, 0x100), Digit(h.sid, 1)]
  }

  function Three(a: nat, b: nat, c: nat): nat { 0x1_0000 * a + 0x100 * b + c }

  function Four(a: nat, b: nat, c: nat, d: nat): nat { 0x100_0000 * a + Three(b, c, d) }

  /** What nine bytes mean. */
  function Read(b: seq<Byte>): Header
    requires |b| == HEADER_LENGTH
  {
    Header(Three(b[0], b[1], b[2]), b[3], b[4], Four(b[5], b[6], b[7], b[8]))
  }

  /** The low bytes of `n`, one below the other. */
  lemma Bytes(n: nat)
    ensures var q0 := n / 0x100; var q1 := q0 / 0x100; var q2 := q1 / 0x100; var q3 := q2 / 0x100;
      && n == 0x100 * q0 + Digit(n, 1) && q0 == 0x100 * q1 + Digit(n, 0x100)
      && q1 == 0x100 * q2 + Digit(n, 0x1_0000) && q2 == 0x100 * q3 + Digit(n, 0x100_0000)
  {
    var q0 := n / 0x100;
    var q1 := q0 / 0x100;
    assert n / 0x1_0000 == q1;
    assert n / 0x100_0000 == q1 / 0x100;
  }

  lemma DigitsBack(n: nat)
    ensures Three(Digit(n, 0x1_0000), Digit(n, 0x100), Digit(n, 1)) == n % 0x100_0000
    ensures Four(Digit(n, 0x100_0000), Digit(n, 0x1_0000), Digit(n, 0x100), Digit(n, 1)) == n % 0x1_0000_0000
  {
    hide Digit;
    Bytes(n);
    var q2 := n / 0x100 / 0x100 / 0x100;
    var q3 := q2 / 0x100;
    var low: nat := Three(Digit(n, 0x1_0000), Digit(n, 0x100), Digit(n, 1));
    var all: nat := Four(Digit(n, 0x100_0000), Digit(n, 0x1_0000), Digit(n, 0x100), Digit(n, 1));
    assert n == q2 * 0x100_0000 + low && low < 0x100_0000;
    assert n == q3 * 0x1_0000_0000 + all && all < 0x1_0000_0000;
    RemainderUnique(n, q2, low, 0x100_0000);
    RemainderUnique(n, q3, all, 0x1_0000_0000);
  }

  /** What the sender writes reads back as it was, exactly when every part fits its bytes. */
  lemma ReadBack(h: Header)
    ensures Read(HeaderBytes(h)) == Header(h.length % 0x100_0000, h.kind % 256, h.flags % 256, h.sid % 0x1_0000_0000)
    ensures Read(HeaderBytes(h)) == h <==> Fits(h)
  {
    hide Digit, Three, Four;
    DigitsBack(h.length);
    DigitsBack(h.sid);
    LastDigit(h.kind);
    LastDigit(h.flags);
  }

  lemma LastDigit(n: nat)
    ensures Digit(n, 1) == n % 256
  {
  }

  // ---- one frame

  /** The parser after the first `k` bytes of a header. */
  function Fill(v: View, b: seq<Byte>, k: nat): (w: View)
    requires Ready(v) && v.frameState == 0 && k <= |b| && k <= HEADER_LENGTH
    ensures w.frameState == k
  {
    if k == 0 then v else HeaderByte(Fill(v, b, k - 1), b[k - 1])
  }

  lemma LastOne(v: View, c: Byte)
    requires Ready(v)
    ensures Run(v, [c]) == Step(v, c, AGREE)
  {
    hide Step;
    RunOne(v, c, []);
    assert [c] + [] == [c];
    var o := Step(v, c, AGREE);
    assert o.events + [] == o.events;
    if o.ret == 0 { assert Run(o.view, []) == Out(o.view, [], 0); }
  }

  /** Inside a header nothing shows. */
  lemma {:induction false} HeaderInside(v: View, b: seq<Byte>, k: nat)
    requires Ready(v) && v.frameState == 0 && k <= |b| && k < HEADER_LENGTH
    ensures Run(v, b[..k]) == Out(Fill(v, b, k), [], 0)
    decreases k
  {
    if k > 0 {
      HeaderInside(v, b, k - 1);
      var w := Fill(v, b, k - 1);
      RunAppend(v, b[..k - 1], [b[k - 1]]);
      LastOne(w, b[k - 1]);
      assert b[..k] == b[..k - 1] + [b[k - 1]];
      assert Step(w, b[k - 1], AGREE) == Out(Fill(v, b, k), [], 0);
    }
  }

  /** Taking whole multiples away changes no low part. */
  lemma MultiplesDrop(m: int, q: int, low: nat, h: int, t: int, p: Positive)
    requires low < p && m == q * p + low
    ensures (m - h * (t * p)) % p == low
  {
    assert h * (t * p) == (h * t) * p;
    RemainderUnique(m - h * (t * p), q - h * t, low, p);
  }

  lemma ShiftedBy(n: nat, c: Byte, k: Positive, t: nat, q: nat, low: nat)
    requires n == q * k + low && low < k && t * (0x100 * k) == 0x1_0000_0000
    ensures Low(Shifted(n, c), 0x100 * k) == 0x100 * low + c
  {
    var m: nat := 0x100 * n + c;
    var h := m / 0x1_0000_0000;
    assert Shifted(n, c) == m - h * 0x1_0000_0000;
    hide Shifted;
    var p := 0x100 * k;
    assert q * p == 0x100 * (q * k);
    MultiplesDrop(m, q, 0x100 * low + c, h, t, p);
  }

  /** A shift drops the top byte. */
  lemma ShiftDrops(n: nat, c: Byte, k: nat, low: nat)
    requires k == 0x1 || k == 0x100 || k == 0x1_0000 || k == 0x100_0000
    requires low < k && Low(n, k) == low
    ensures Low(Shifted(n, c), 0x100 * k) == 0x100 * low + c
  {
    hide Shifted;
    var q := n / k;
    if k == 0x1 { ShiftedBy(n, c, 0x1, 0x100_0000, q, low); }
    else if k == 0x100 { ShiftedBy(n, c, 0x100, 0x1_0000, q, low); }
    else if k == 0x1_0000 { ShiftedBy(n, c, 0x1_0000, 0x100, q, low); }
    else { ShiftedBy(n, c, 0x100_0000, 1, q, low); }
  }

  function Low(n: nat, k: nat): nat
    requires k > 0
  {
    n % k
  }

  lemma ShiftedOut(n: nat, a: Byte, b: Byte, c: Byte, d: Byte)
    ensures Shifted(Shifted(Shifted(Shifted(n, a), b), c), d) == Four(a, b, c, d)
    ensures Shifted(Shifted(a, b), c) == Three(a, b, c)
  {
    hide Low, Shifted;
    var n1 := Shifted(n, a);
    var n2 := Shifted(n1, b);
    var n3 := Shifted(n2, c);
    var a', b', c': nat := a, b, c;
    NothingLow(n);
    ShiftDrops(n, a, 0x1, 0);
    ShiftDrops(n1, b, 0x100, a);
    ShiftDrops(n2, c, 0x1_0000, 0x100 * a' + b');
    ShiftDrops(n3, d, 0x100_0000, 0x1_0000 * a' + 0x100 * b' + c');
    AllLow(n3, d);
    ShortShift(a, b, c);
  }

  lemma NothingLow(n: nat)
    ensures Low(n, 1) == 0
  {
  }

  lemma AllLow(n: nat, c: Byte)
    ensures Low(Shifted(n, c), 0x1_0000_0000) == Shifted(n, c)
  {
  }

  lemma ShortShift(a: Byte, b: Byte, c: Byte)
    ensures Shifted(Shifted(a, b), c) == Three(a, b, c)
  {
    var a', b': nat := a, b;
    assert Shifted(a, b) == 0x100 * a' + b';
  }

  /** Whatever the last frame left behind, nine bytes set the whole header. */
  lemma HeaderFilled(v: View, b: seq<Byte>)
    requires Ready(v) && v.frameState == 0 && |b| == HEADER_LENGTH
    ensures Fill(v, b, HEADER_LENGTH) == v.(frameState := HEADER_LENGTH, header := Read(b))
  {
    hide Shifted, Three, Four;
    ShiftedOut(v.header.sid, b[5], b[6], b[7], b[8]);
    ShiftedOut(0, b[0], b[1], b[2], 0);
    var v1 := HeaderByte(v, b[0]);
    assert Fill(v, b, 1) == HeaderByte(Fill(v, b, 0), b[0]) == v1;
    var v3 := HeaderByte(HeaderByte(v1, b[1]), b[2]);
    assert Fill(v, b, 3) == v3 && v3.header == v.header.(length := Three(b[0], b[1], b[2]));
    var v5 := HeaderByte(HeaderByte(v3, b[3]), b[4]);
    assert Fill(v, b, 5) == v5;
    var v7 := HeaderByte(HeaderByte(v5, b[5]), b[6]);
    assert Fill(v, b, 7) == v7;
    assert Fill(v, b, 9) == HeaderByte(HeaderByte(v7, b[7]), b[8]);
  }

  lemma HeaderRun(v: View, h: Header)
    requires Ready(v) && v.frameState == 0 && Fits(h)
    ensures Run(v, HeaderBytes(h)) == OpenFrame(v.(frameState := HEADER_LENGTH, header := h), true)
  {
    var b := HeaderBytes(h);
    ReadBack(h);
    HeaderFilled(v, b);
    HeaderInside(v, b, 8);
    assert b == b[..8] + [b[8]];
    RunAppend(v, b[..8], [b[8]]);
    LastOne(Fill(v, b, 8), b[8]);
    hide Fits, HeaderBytes, Read, HeaderByte;
    var o := Run(v, b);
    assert o.(events := [] + o.events) == o;
  }

  datatype Frame = Frame(kind: nat, flags: nat, sid: nat, payload: seq<Byte>)

  function HeaderOf(f: Frame): Header { Header(|f.payload|, f.kind, f.flags, f.sid) }

  function Wire(f: Frame): seq<Byte> { HeaderBytes(HeaderOf(f)) + f.payload }

  /** What the credit of `f`'s stream is when its last byte is there. */
  function CreditBefore(v: View, f: Frame): int {
    if f.sid == 0 && !v.initialized then v.peerWindow else if f.sid in v.credits then v.credits[f.sid] else INITIAL_CREDIT
  }

  /** The increment of a WINDOW_UPDATE. */
  function Increment(f: Frame): nat {
    if |f.payload| == 4 then Four(f.payload[0], f.payload[1], f.payload[2], f.payload[3]) else 0
  }

  /** A frame the parser takes: a header it accepts, a stream for the payload if there is one,
      and a window that can be raised if it is to be. */
  predicate Legal(v: View, f: Frame) {
    && Deliverable(v, f)
    && (f.kind == WINDOW_UPDATE ==> Credited(CreditBefore(v, f), Increment(f)).0)
  }

  predicate Deliverable(v: View, f: Frame) {
    var h := HeaderOf(f);
    Fits(h) && Accepted(v, h, true) && (f.payload != [] ==> f.sid == 0 || f.sid in v.credits || f.kind == HEADERS)
  }

  /** The number collected from a payload. */
  function Collected(kind: nat, count: nat, dep: nat, bytes: seq<Byte>): nat
    decreases |bytes|
  {
    if bytes == [] then dep
    else Collected(kind, count + 1, DepByte(kind, count + 1, dep, bytes[0]), bytes[1..])
  }

  /** The parser between frames, after `f`. */
  function After(v: View, f: Frame): View
    requires Legal(v, f)
  {
    var begun := v.(frameState := 0, count := 0, header := HeaderOf(f),
      credits := if f.kind == HEADERS then WithStream(v.credits, f.sid) else v.credits,
      endHeaders := if f.kind == HEADERS || f.kind == CONTINUATION then EndHeaders(f.flags) else v.endHeaders);
    if f.payload == [] then begun
    else
      var w := begun.(initialized := true, dep := Collected(f.kind, 0, v.dep, f.payload),
        credits := if v.initialized then begun.credits else begun.credits[0 := v.peerWindow]);
      if f.kind != WINDOW_UPDATE then w
      else w.(dep := Increment(f) % 0x8000_0000,
              credits := w.credits[f.sid := Credited(CreditBefore(v, f), Increment(f)).1])
  }

  function Bodies(bytes: seq<Byte>): seq<Event> {
    if bytes == [] then [] else [Body(bytes[0])] + Bodies(bytes[1..])
  }

  /** What a frame shows: its header, its payload, and, unless it is empty, its end. */
  function Shown(f: Frame): seq<Event> {
    [Opened(HeaderOf(f))] + Bodies(f.payload) + if f.payload == [] then [] else [Closed]
  }

  lemma {:induction false} PayloadRun(v: View, bytes: seq<Byte>)
    requires Ready(v) && v.frameState == HEADER_LENGTH && HasStream(v) && v.count + |bytes| <= v.header.length
    ensures var w := v.(count := v.count + |bytes|, dep := Collected(v.header.kind, v.count, v.dep, bytes));
      Run(v, bytes) ==
        if bytes != [] && w.count == v.header.length
        then var o := EndOfFrame(w); o.(events := Bodies(bytes) + o.events)
        else Out(w, Bodies(bytes), 0)
    decreases |bytes|
  {
    hide EndOfFrame, DepByte, Step;
    if bytes != [] {
      var c, rest := bytes[0], bytes[1..];
      assert bytes == [c] + rest;
      PayloadStep(v, c);
      var w := v.(count := v.count + 1, dep := DepByte(v.header.kind, v.count + 1, v.dep, c));
      if rest != [] {
        RunOne(v, c, rest);
        PayloadRun(w, rest);
        var o := EndOfFrame(v.(count := v.count + |bytes|, dep := Collected(v.header.kind, v.count, v.dep, bytes)));
        assert [Body(c)] + (Bodies(rest) + o.events) == Bodies(bytes) + o.events;
      } else {
        assert Bodies(bytes) == [Body(c)];
        LastOne(v, c);
        assert bytes == [c];
      }
    }
  }

  lemma PayloadStep(v: View, c: Byte)
    requires Ready(v) && v.frameState == HEADER_LENGTH && HasStream(v)
    ensures var w := v.(count := v.count + 1, dep := DepByte(v.header.kind, v.count + 1, v.dep, c));
      Step(v, c, AGREE) ==
        if w.count != v.header.length then Out(w, [Body(c)], 0)
        else var o := EndOfFrame(w); o.(events := [Body(c)] + o.events)
  {
    hide EndOfFrame, DepByte;
  }

  lemma FourCollected(dep: nat, b: seq<Byte>)
    requires |b| == 4
    ensures Collected(WINDOW_UPDATE, 0, dep, b) == Four(b[0], b[1], b[2], b[3])
  {
    hide Shifted, Four;
    ShiftedOut(dep, b[0], b[1], b[2], b[3]);
    var b1, b2, b3 := b[1..], b[2..], b[3..];
    var d1 := Shifted(dep, b[0]);
    var d2 := Shifted(d1, b[1]);
    var d3 := Shifted(d2, b[2]);
    assert b1[1..] == b2 && b2[1..] == b3 && b3[1..] == [];
    assert Collected(WINDOW_UPDATE, 0, dep, b) == Collected(WINDOW_UPDATE, 1, d1, b1);
    assert Collected(WINDOW_UPDATE, 1, d1, b1) == Collected(WINDOW_UPDATE, 2, d2, b2);
    assert Collected(WINDOW_UPDATE, 2, d2, b2) == Collected(WINDOW_UPDATE, 3, d3, b3);
    assert Collected(WINDOW_UPDATE, 3, d3, b3) == Collected(WINDOW_UPDATE, 4, Shifted(d3, b[3]), []);
  }

  /** The whole of a frame whose header is accepted, up to what its end brings. */
  lemma DeliverableRead(v: View, f: Frame)
    requires Ready(v) && v.frameState == 0 && Deliverable(v, f) && f.payload != []
    ensures var w := OpenFrame(v.(frameState := HEADER_LENGTH, header := HeaderOf(f)), true).view;
      && Ready(w) && HasStream(w)
      && var o := EndOfFrame(w.(count := |f.payload|, dep := Collected(f.kind, 0, v.dep, f.payload)));
         Run(v, Wire(f)) == o.(events := [Opened(HeaderOf(f))] + Bodies(f.payload) + o.events)
  {
    hide EndOfFrame, Run, Collected;
    var h := HeaderOf(f);
    HeaderRun(v, h);
    RunAppend(v, HeaderBytes(h), f.payload);
    var o := OpenFrame(v.(frameState := HEADER_LENGTH, header := h), true);
    PayloadRun(o.view, f.payload);
    var e := EndOfFrame(o.view.(count := |f.payload|, dep := Collected(f.kind, 0, v.dep, f.payload)));
    assert [Opened(h)] + (Bodies(f.payload) + e.events) == [Opened(h)] + Bodies(f.payload) + e.events;
  }

  /** A frame, read from its first byte to its last, whatever the parser was left with. */
  lemma FrameRead(v: View, f: Frame)
    requires Ready(v) && v.frameState == 0 && Legal(v, f)
    ensures Run(v, Wire(f)) == Out(After(v, f), Shown(f), 0)
    ensures Ready(After(v, f))
  {
    hide Run, Collected, Credited, Bodies, Four;
    if f.payload == [] {
      HeaderRun(v, HeaderOf(f));
      assert HeaderBytes(HeaderOf(f)) + [] == HeaderBytes(HeaderOf(f));
      assert Bodies([]) == [] by { NoBodies(); }
    } else {
      DeliverableRead(v, f);
      if f.kind == WINDOW_UPDATE { FourCollected(v.dep, f.payload); CreditIgnoresTop(CreditBefore(v, f), Increment(f)); }
    }
  }

  lemma NoBodies()
    ensures Bodies([]) == []
  {
  }

  lemma CreditIgnoresTop(credit: int, inc: nat)
    ensures Credited(credit, inc) == Credited(credit, inc % 0x8000_0000)
  {
  }

  /** A WINDOW_UPDATE for the connection or a known stream is taken exactly when the window ends
      up between zero and the largest window of section 6.9.1 of RFC 7540, and then raises that
      window alone. */
  lemma WindowUpdateRead(v: View, f: Frame)
    requires Ready(v) && v.frameState == 0 && Deliverable(v, f) && f.kind == WINDOW_UPDATE
    requires -0x8000_0000 <= CreditBefore(v, f) < 0x8000_0000
    ensures var o := Run(v, Wire(f)); var credit := CreditBefore(v, f) + Increment(f) % 0x8000_0000;
      && o.ret == (if 0 <= credit < 0x8000_0000 then 0 else 1)
      && (o.ret == 0 ==> f.sid in o.view.credits && o.view.credits[f.sid] == credit)
      && forall s <- v.credits :: s != f.sid && s != 0 ==> s in o.view.credits && o.view.credits[s] == v.credits[s]
  {
    hide Run, Collected, Bodies, Credited, EndOfFrame, OpenFrame, Deliverable, Wire, Increment;
    UpdateOpens(v, f);
    CreditTaken(CreditBefore(v, f), Increment(f));
    DeliverableRead(v, f);
    UpdateEnds(v.(frameState := HEADER_LENGTH, header := HeaderOf(f), count := 4, dep := Increment(f)));
  }

  lemma UpdateOpens(v: View, f: Frame)
    requires Ready(v) && Deliverable(v, f) && f.kind == WINDOW_UPDATE
    ensures |f.payload| == 4 && (f.sid == 0 || f.sid in v.credits)
    ensures var w := v.(frameState := HEADER_LENGTH, header := HeaderOf(f)); OpenFrame(w, true).view == w.(count := 0)
    ensures Collected(f.kind, 0, v.dep, f.payload) == Increment(f)
  {
    FourCollected(v.dep, f.payload);
    hide Collected, Four;
  }

  lemma UpdateEnds(v: View)
    requires Ready(v) && HasStream(v) && v.header.kind == WINDOW_UPDATE
    ensures var o := EndOfFrame(v); var sid := v.header.sid;
      var c := Credited(if sid == 0 && !v.initialized then v.peerWindow else v.credits[sid], v.dep);
      && o.ret == (if c.0 then 0 else 1) && (c.0 ==> sid in o.view.credits && o.view.credits[sid] == c.1)
      && forall s <- v.credits :: s != sid && s != 0 ==> s in o.view.credits && o.view.credits[s] == v.credits[s]
  {
    hide Credited;
  }

  lemma CreditTaken(credit: int, inc: nat)
    requires -0x8000_0000 <= credit < 0x8000_0000
    ensures Credited(credit, inc).0 <==> 0 <= credit + inc % 0x8000_0000 < 0x8000_0000
    ensures Credited(credit, inc).1 == if Credited(credit, inc).0 then credit + inc % 0x8000_0000 else credit
  {
  }

  /** A frame with a header the parser does not accept is refused with its ninth byte. */
  lemma FrameRefused(v: View, f: Frame, more: seq<Byte>)
    requires Ready(v) && v.frameState == 0 && Fits(HeaderOf(f)) && !Accepted(v, HeaderOf(f), true)
    ensures Run(v, Wire(f) + more).ret == 1 && Run(v, Wire(f) + more).events == [Opened(HeaderOf(f))]
  {
    var h := HeaderOf(f);
    HeaderRun(v, h);
    RunAppend(v, HeaderBytes(h), f.payload + more);
    assert Wire(f) + more == HeaderBytes(h) + (f.payload + more);
  }

  /** A payload for a stream there is no connection for, in a frame whose header is accepted, is
      fatal with its first byte, whatever follows; no other frame is. */
  lemma FrameFaults(v: View, f: Frame, more: seq<Byte>)
    requires Ready(v) && v.frameState == 0 && Fits(HeaderOf(f)) && Accepted(v, HeaderOf(f), true)
    ensures Run(v, Wire(f)).ret == FAULT <==> !Deliverable(v, f)
    ensures !Deliverable(v, f) ==> Run(v, Wire(f) + more) == Run(v, Wire(f))
    ensures !Deliverable(v, f) ==> Run(v, Wire(f)).events == [Opened(HeaderOf(f))]
  {
    hide Run, Fits, Collected, Credited, Accepted;
    if !Deliverable(v, f) {
      NoStreamFaults(v, f, more);
      assert f.payload + [] == f.payload;
      NoStreamFaults(v, f, []);
      assert Wire(f) + [] == Wire(f);
    } else if f.payload == [] {
      HeaderRun(v, HeaderOf(f));
      assert HeaderBytes(HeaderOf(f)) + [] == HeaderBytes(HeaderOf(f));
    } else {
      DeliverableRead(v, f);
    }
  }

  lemma NoStreamFaults(v: View, f: Frame, more: seq<Byte>)
    requires Ready(v) && v.frameState == 0 && Fits(HeaderOf(f)) && Accepted(v, HeaderOf(f), true) && !Deliverable(v, f)
    ensures Run(v, Wire(f) + more)
      == Out(OpenFrame(v.(frameState := HEADER_LENGTH, header := HeaderOf(f)), true).view, [Opened(HeaderOf(f))], FAULT)
  {
    var h := HeaderOf(f);
    var o := OpenFrame(v.(frameState := HEADER_LENGTH, header := h), true);
    HeaderRun(v, h);
    RunAppend(v, HeaderBytes(h), f.payload + more);
    assert Wire(f) + more == HeaderBytes(h) + (f.payload + more);
    assert f.payload + more == [f.payload[0]] + (f.payload[1..] + more);
    RunOne(o.view, f.payload[0], f.payload[1..] + more);
    hide HeaderBytes, Fits;
    assert [Opened(h)] + [] == [Opened(h)];
  }

  // ---- sequences of frames

  predicate AllLegal(v: View, fs: seq<Frame>)
    decreases |fs|
  {
    fs == [] || (Legal(v, fs[0]) && AllLegal(After(v, fs[0]), fs[1..]))
  }

  function WireAll(fs: seq<Frame>): seq<Byte> {
    if fs == [] then [] else Wire(fs[0]) + WireAll(fs[1..])
  }

  function ShownAll(fs: seq<Frame>): seq<Event> {
    if fs == [] then [] else Shown(fs[0]) + ShownAll(fs[1..])
  }

  function AfterAll(v: View, fs: seq<Frame>): View
    requires AllLegal(v, fs)
    decreases |fs|
  {
    if fs == [] then v else AfterAll(After(v, fs[0]), fs[1..])
  }

  lemma {:induction false} FramesRead(v: View, fs: seq<Frame>)
    requires Ready(v) && v.frameState == 0 && AllLegal(v, fs)
    ensures Run(v, WireAll(fs)) == Out(AfterAll(v, fs), ShownAll(fs), 0)
    decreases |fs|
  {
    if fs != [] {
      FrameRead(v, fs[0]);
      FramesRead(After(v, fs[0]), fs[1..]);
      hide Run, Wire, Shown, Legal;
      RunAppend(v, Wire(fs[0]), WireAll(fs[1..]));
    }
  }

  /** `k` bytes are some whole number of the frames. */
  predicate AtEnd(fs: seq<Frame>, k: nat)
    decreases |fs|
  {
    k == 0 || (fs != [] && k >= |Wire(fs[0])| && AtEnd(fs[1..], k - |Wire(fs[0])|))
  }

  lemma FrameInside(v: View, f: Frame, k: nat)
    requires Ready(v) && v.frameState == 0 && Legal(v, f) && 0 < k < |Wire(f)|
    ensures var o := Run(v, Wire(f)[..k]); o.ret == 0 && o.view.frameState != 0
  {
    var h := HeaderOf(f);
    var b := HeaderBytes(h);
    if k < HEADER_LENGTH {
      HeaderInside(v, b, k);
      assert Wire(f)[..k] == b[..k];
    } else {
      var part := f.payload[..k - HEADER_LENGTH];
      assert Wire(f)[..k] == b + part;
      HeaderRun(v, h);
      RunAppend(v, b, part);
      PayloadRun(OpenFrame(v.(frameState := HEADER_LENGTH, header := h), true).view, part);
    }
  }

  /** However the bytes are cut, the parser awaits a header exactly at the ends of frames, those
      without a payload included. */
  lemma {:induction false} SplitExactlyAtEnds(v: View, fs: seq<Frame>, k: nat)
    requires Ready(v) && v.frameState == 0 && AllLegal(v, fs) && k <= |WireAll(fs)|
    ensures var o := Run(v, WireAll(fs)[..k]); o.ret == 0 && (o.view.frameState == 0 <==> AtEnd(fs, k))
    decreases |fs|
  {
    if k > 0 {
      var wire, more := Wire(fs[0]), WireAll(fs[1..]);
      assert WireAll(fs) == wire + more;
      hide Run, Wire, WireAll, Shown, Legal;
      if k < |wire| {
        FrameInside(v, fs[0], k);
        assert (wire + more)[..k] == wire[..k];
      } else {
        FrameRead(v, fs[0]);
        SplitExactlyAtEnds(After(v, fs[0]), fs[1..], k - |wire|);
        assert (wire + more)[..k] == wire + more[..k - |wire|];
        RunAppend(v, wire, more[..k - |wire|]);
      }
    }
  }
}
