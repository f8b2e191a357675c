/** The receive machine on whole frames, sequences of frames and messages. */
module WebsocketFrames {
  import opened WebsocketSpec

  /** Data in pieces that fill a buffer of `size` bytes, with what is left in the last. */
  function Chunks(data: seq<Byte>, size: nat): seq<seq<Byte>>
    requires size > 0
  {
    if data == [] then [] else if |data| <= size then [data] else [data[..size]] + Chunks(data[size..], size)
  }

  function Receives(chunks: seq<seq<Byte>>, binary: bool): (r: seq<Event>)
    ensures |r| == |chunks| && forall i :: 0 <= i < |r| ==> r[i] == Receive(chunks[i], binary)
  {
    if chunks == [] then [] else [Receive(chunks[0], binary)] + Receives(chunks[1..], binary)
  }

  function Flatten(chunks: seq<seq<Byte>>): seq<Byte> {
    if chunks == [] then [] else chunks[0] + Flatten(chunks[1..])
  }

  lemma FlattenFirst(head: seq<Byte>, tail: seq<seq<Byte>>)
    ensures Flatten([head] + tail) == head + Flatten(tail)
  {
    assert ([head] + tail)[1..] == tail;
  }

  lemma ChunksOf(data: seq<Byte>, size: nat)
    requires size > 0
    ensures Chunks(data, size) ==
      if data == [] then [] else if |data| <= size then [data] else [data[..size]] + Chunks(data[size..], size)
  {
  }

  lemma {:induction false} ChunksJoin(data: seq<Byte>, size: nat)
    requires size > 0
    ensures Flatten(Chunks(data, size)) == data
    ensures forall c <- Chunks(data, size) :: 0 < |c| <= size
    decreases |data|
  {
    hide Chunks;
    ChunksOf(data, size);
    if |data| > size {
      var head, tail := data[..size], data[size..];
      ChunksJoin(tail, size);
      FlattenFirst(head, Chunks(tail, size));
      assert data == head + tail;
    } else if data != [] {
      FlattenFirst(data, []);
      assert [data] + [] == [data] && data + [] == data;
    }
  }

  predicate IsData(f: Frame) { f.opcode <= BINARY }

  /** The type of the data that follows `f`. */
  function TypeAfter(binary: bool, f: Frame): bool {
    if f.opcode == TEXT || f.opcode == BINARY then f.opcode == BINARY else binary
  }

  predicate Stashes(pending: bool, f: Frame) {
    f.opcode == PING && !pending && |f.payload| <= 124
  }

  /** What one frame, other than a closing one, shows the outside. */
  function Shown(size: nat, binary: bool, pending: bool, f: Frame): seq<Event>
    requires size > 0
  {
    if IsData(f) then Receives(Chunks(f.payload, size), TypeAfter(binary, f))
    else if Stashes(pending, f) then [AskWritable]
    else if f.opcode == PONG then [ReceivePong(f.payload)]
    else []
  }

  /** The machine between frames, after `f`. */
  function After(v: View, f: Frame): View {
    var w := Opened(v, f).(held := []);
    if Stashes(v.pingPending, f) then w.(ping := f.payload, pingPending := true) else w
  }

  lemma {:induction false} DataDelivered(s: Setup, v: View, all: seq<Byte>)
    requires s.size > 0 && v.opcode <= BINARY
    ensures Deliver(s, v, all) == Out(v.(held := []), Receives(Chunks(all, s.size), v.binary), 0)
    decreases |all|
  {
    if |all| <= s.size {
      DeliverAll(s, v, all);
    } else {
      var part, more := all[..s.size], all[s.size..];
      DeliverPart(s, v, all);
      var w := v.(held := []);
      assert Spill(v.(held := part), false) == Out(w, [Receive(part, v.binary)], 0);
      DataDelivered(s, w, more);
    }
  }

  lemma {:induction false} ReservedDropped(s: Setup, v: View, all: seq<Byte>)
    requires s.size > 0 && v.opcode > BINARY && v.opcode != CLOSE && v.opcode != PING && v.opcode != PONG
    ensures Deliver(s, v, all) == Out(v.(held := []), [], 0)
    decreases |all|
  {
    if |all| <= s.size {
      DeliverAll(s, v, all);
    } else {
      DeliverPart(s, v, all);
      ReservedDropped(s, v.(held := []), all[s.size..]);
    }
  }

  predicate Fresh(s: Setup, v: View) {
    Ready(v) && v.phase.New? && v.held == [] && v.length == 0 && s.size >= 125
  }

  /** A whole frame: what it shows, and what it leaves. */
  lemma FrameRead(s: Setup, v: View, f: Frame)
    requires Fresh(s, v) && Fits(s, f) && f.opcode != CLOSE
    ensures Run(s, v, Wire(s, f)) == Out(After(v, f), Shown(s.size, v.binary, v.pingPending, f), 0)
    ensures Fresh(s, After(v, f))
  {
    var w := Opened(v, f);
    FrameRun(s, v, f);
    hide Run, Wire;
    if IsData(f) {
      DataDelivered(s, w, f.payload);
    } else if f.opcode == PING || f.opcode == PONG {
      DeliverAll(s, w, f.payload);
    } else {
      ReservedDropped(s, w, f.payload);
    }
  }

  // ---- sequences of frames

  predicate AllFit(s: Setup, fs: seq<Frame>) {
    forall i :: 0 <= i < |fs| ==> Fits(s, fs[i]) && fs[i].opcode != CLOSE
  }

  function WireAll(s: Setup, fs: seq<Frame>): seq<Byte>
    requires AllFit(s, fs)
  {
    if fs == [] then [] else Wire(s, fs[0]) + WireAll(s, fs[1..])
  }

  function ShownAll(size: nat, binary: bool, pending: bool, fs: seq<Frame>): seq<Event>
    requires size > 0
    decreases |fs|
  {
    if fs == [] then []
    else
      var more := ShownAll(size, TypeAfter(binary, fs[0]), pending || Stashes(pending, fs[0]), fs[1..]);
      Shown(size, binary, pending, fs[0]) + more
  }

  function AfterAll(v: View, fs: seq<Frame>): View
    decreases |fs|
  {
    if fs == [] then v else AfterAll(After(v, fs[0]), fs[1..])
  }

  /** Any sequence of frames shows exactly what the frames show one by one. */
  lemma {:induction false} FramesRead(s: Setup, v: View, fs: seq<Frame>)
    requires Fresh(s, v) && AllFit(s, fs)
    ensures Run(s, v, WireAll(s, fs)) == Out(AfterAll(v, fs), ShownAll(s.size, v.binary, v.pingPending, fs), 0)
    ensures Fresh(s, AfterAll(v, fs))
    decreases |fs|
  {
    if fs != [] {
      var w := After(v, fs[0]);
      FrameRead(s, v, fs[0]);
      FramesRead(s, w, fs[1..]);
      hide Run, Wire, Shown, Fits;
      RunAppend(s, v, Wire(s, fs[0]), WireAll(s, fs[1..]));
      assert w.binary == TypeAfter(v.binary, fs[0]);
      assert w.pingPending == (v.pingPending || Stashes(v.pingPending, fs[0]));
    }
  }

  function DataOf(events: seq<Event>): seq<Byte> {
    if events == [] then []
    else (if events[0].Receive? then events[0].data else []) + DataOf(events[1..])
  }

  function PayloadsOf(fs: seq<Frame>): seq<Byte> {
    if fs == [] then [] else (if IsData(fs[0]) then fs[0].payload else []) + PayloadsOf(fs[1..])
  }

  lemma {:induction false} DataAppend(a: seq<Event>, b: seq<Event>)
    ensures DataOf(a + b) == DataOf(a) + DataOf(b)
    decreases |a|
  {
    if a == [] {
      assert a + b == b;
    } else {
      assert (a + b)[1..] == a[1..] + b;
      DataAppend(a[1..], b);
    }
  }

  lemma {:induction false} DataOfReceives(chunks: seq<seq<Byte>>, binary: bool)
    ensures DataOf(Receives(chunks, binary)) == Flatten(chunks)
    decreases |chunks|
  {
    if chunks != [] {
      DataOfReceives(chunks[1..], binary);
      assert Receives(chunks, binary)[1..] == Receives(chunks[1..], binary);
    }
  }

  predicate Sized(events: seq<Event>, size: nat) {
    forall i :: 0 <= i < |events| && events[i].Receive? ==> 0 < |events[i].data| <= size
  }

  predicate Typed(events: seq<Event>, binary: bool) {
    forall i :: 0 <= i < |events| && events[i].Receive? ==> events[i].binary == binary
  }

  lemma FrameInOrder(size: nat, binary: bool, pending: bool, f: Frame)
    requires size > 0
    ensures var e := Shown(size, binary, pending, f);
      DataOf(e) == (if IsData(f) then f.payload else []) && Sized(e, size)
  {
    hide Chunks, Receives, Flatten;
    if IsData(f) {
      ChunksJoin(f.payload, size);
      DataOfReceives(Chunks(f.payload, size), TypeAfter(binary, f));
    } else {
      assert DataOf([AskWritable]) == [] && DataOf([ReceivePong(f.payload)]) == [];
    }
  }

  /** The pieces delivered join up to the payloads of the data frames, in order; none is empty
      or larger than the buffer. */
  lemma {:induction false} DataInOrder(size: nat, binary: bool, pending: bool, fs: seq<Frame>)
    requires size > 0
    ensures var e := ShownAll(size, binary, pending, fs); DataOf(e) == PayloadsOf(fs) && Sized(e, size)
    decreases |fs|
  {
    if fs != [] {
      var f := fs[0];
      var own := Shown(size, binary, pending, f);
      var more := ShownAll(size, TypeAfter(binary, f), pending || Stashes(pending, f), fs[1..]);
      DataInOrder(size, TypeAfter(binary, f), pending || Stashes(pending, f), fs[1..]);
      DataAppend(own, more);
      FrameInOrder(size, binary, pending, f);
      assert ShownAll(size, binary, pending, fs) == own + more;
      hide ShownAll, Shown, DataOf, Stashes, TypeAfter;
    }
  }

  /** Continuations and control frames keep the type of the message. */
  lemma {:induction false} TypeKept(size: nat, binary: bool, pending: bool, fs: seq<Frame>)
    requires size > 0 && forall i :: 0 <= i < |fs| ==> fs[i].opcode == CONTINUATION || fs[i].opcode >= 8
    ensures Typed(ShownAll(size, binary, pending, fs), binary)
    decreases |fs|
  {
    if fs != [] { TypeKept(size, binary, pending || Stashes(pending, fs[0]), fs[1..]); }
  }

  lemma FirstType(size: nat, binary: bool, pending: bool, first: Frame, rest: seq<Frame>)
    requires size > 0 && (first.opcode == TEXT || first.opcode == BINARY)
    requires forall i :: 0 <= i < |rest| ==> rest[i].opcode == CONTINUATION || rest[i].opcode >= 8
    ensures Typed(ShownAll(size, binary, pending, [first] + rest), first.opcode == BINARY)
  {
    var kind := first.opcode == BINARY;
    var pending' := pending || Stashes(pending, first);
    TypeKept(size, kind, pending', rest);
    assert ([first] + rest)[1..] == rest;
    hide Chunks, Stashes;
    assert ShownAll(size, binary, pending, [first] + rest) == Shown(size, binary, pending, first) + ShownAll(size, kind, pending', rest);
  }

  /** A message of any number of fragments, with control frames between them, is delivered with
      the kind of its first frame throughout. */
  lemma MessageType(s: Setup, v: View, first: Frame, rest: seq<Frame>)
    requires Fresh(s, v) && AllFit(s, [first] + rest)
    requires first.opcode == TEXT || first.opcode == BINARY
    requires forall i :: 0 <= i < |rest| ==> rest[i].opcode == CONTINUATION || rest[i].opcode >= 8
    ensures var o := Run(s, v, WireAll(s, [first] + rest));
      && o.ret == 0 && Typed(o.events, first.opcode == BINARY) && DataOf(o.events) == PayloadsOf([first] + rest)
      && Sized(o.events, s.size)
  {
    var fs := [first] + rest;
    FramesRead(s, v, fs);
    DataInOrder(s.size, v.binary, v.pingPending, fs);
    FirstType(s.size, v.binary, v.pingPending, first, rest);
    hide *;
  }

  /** A closing frame is answered with its own payload, unless it is itself the answer, and ends
      the connection: nothing after it is read. */
  lemma CloseEnds(s: Setup, v: View, f: Frame, more: seq<Byte>)
    requires Fresh(s, v) && Fits(s, f) && f.opcode == CLOSE
    ensures var o := Run(s, v, Wire(s, f) + more);
      && o.ret == -1
      && o.events == (if v.link == AwaitingCloseAck then [] else [SendClose(f.payload)])
  {
    FrameRun(s, v, f);
    RunAppend(s, v, Wire(s, f), more);
    DeliverAll(s, Opened(v, f), f.payload);
    hide Run, Wire;
  }

  // ---- where frames end

  predicate Midway(o: Out) { o.ret == 0 && !o.view.phase.New? }

  lemma RunNothing(s: Setup, v: View)
    requires Ready(v)
    ensures Run(s, v, []) == Out(v, [], 0)
  {
  }

  lemma {:induction false} LongInside(s: Setup, v: View, n: nat, k: nat, j: nat)
    requires Ready(v) && !v.masked && v.phase == Len64(k) && LongLength(s, n, k) && j < k
    ensures Midway(Run(s, v, Digits(n, k)[..j]))
    decreases j
  {
    hide LongLength, Weight, Digits, Digit, Below, Run, Step;
    if j == 0 {
      RunNothing(s, v);
    } else {
      LongBounds(s, n, k);
      LongDigit(s, n, k);
      DigitsOf(n, k);
      LongRest(s, n, k);
      var c, rest := Digit(n, Weight(k - 1)), Below(n, Weight(k - 1));
      LongStep(s, v, c, n - rest);
      var v' := v.(length := Base(v, k) + (n - rest), phase := Len64(k - 1));
      LongInside(s, v', rest, k - 1, j - 1);
      assert Digits(n, k)[..j] == [c] + Digits(rest, k - 1)[..j - 1];
      QuietStep(s, v, c, Digits(rest, k - 1)[..j - 1], v');
    }
  }

  lemma MediumInside(s: Setup, v: View, f: Frame, j: nat)
    requires Ready(v) && v.phase.HdrLen? && Fits(s, f) && v.opcode == f.opcode && f.form.Medium? && 0 < j < 3
    ensures Midway(Run(s, v, LengthBytes(s, f)[..j]))
  {
    var hi := Digits(|f.payload|, 2)[0];
    assert LengthBytes(s, f)[..j] == if j == 1 then [126] else [126] + [hi];
    hide Weight, Digits, LengthBytes, Fits;
    var v' := v.(masked := false, phase := Len16(2));
    assert Step(s, v, 126, false) == Out(v', [], 0);
    if j == 1 {
      LastOne(s, v, 126);
    } else {
      QuietStep(s, v, 126, [hi], v');
      LastOne(s, v', hi);
    }
  }

  lemma LengthInside(s: Setup, v: View, f: Frame, j: nat)
    requires Ready(v) && v.phase.HdrLen? && Fits(s, f) && v.opcode == f.opcode && j < |LengthBytes(s, f)|
    ensures Midway(Run(s, v, LengthBytes(s, f)[..j]))
  {
    var n := |f.payload|;
    if j > 0 {
      if f.form.Medium? {
        MediumInside(s, v, f, j);
      } else {
        LongFits(s, f);
        assert LengthBytes(s, f)[..j] == [127] + Digits(n, 8)[..j - 1];
        assert Weight(8) == 256 * Weight(7) && Weight(7) >= Weight(4) by { WeightGrows(4, 7); }
        assert LongLength(s, n, 8);
        hide Weight, Digits, LengthBytes, Fits, LongLength;
        var v' := v.(masked := false, phase := Len64(8));
        assert Step(s, v, 127, false) == Out(v', [], 0);
        LongInside(s, v', n, 8, j - 1);
        QuietStep(s, v, 127, Digits(n, 8)[..j - 1], v');
      }
    }
  }

  lemma {:induction false} PayloadInside(s: Setup, v: View, bytes: seq<Byte>)
    requires Ready(v) && v.phase.Payload? && !v.masked && |v.held| < s.size
    requires |bytes| < v.length && (v.opcode < 8 || |v.held| + v.length <= s.size)
    ensures Midway(Run(s, v, bytes))
    decreases |bytes|
  {
    if bytes != [] {
      var c, rest := bytes[0], bytes[1..];
      var v' := v.(held := v.held + [c], length := v.length - 1);
      PayloadStep(s, v, c);
      assert bytes == [c] + rest;
      hide Step, Run, Spill;
      RunOne(s, v, c, rest);
      if |v'.held| < s.size {
        PayloadInside(s, v', rest);
      } else {
        SpillMidway(s, v', v'.(phase := New, length := 0));
        PayloadInside(s, v'.(held := []), rest);
      }
    }
  }

  /** Strictly inside a frame the machine never awaits a new one. */
  lemma FrameInside(s: Setup, v: View, f: Frame, k: nat)
    requires Fresh(s, v) && Fits(s, f) && 0 < k < |Wire(s, f)|
    ensures Midway(Run(s, v, Wire(s, f)[..k]))
  {
    var first, len := FirstByte(f), LengthBytes(s, f);
    var v1 := Opened(v, f).(phase := HdrLen, masked := v.masked, length := v.length);
    var v2 := Opened(v, f).(phase := HdrLen, length := |f.payload|);
    FirstStep(s, v, f);
    if k <= |len| {
      LengthInside(s, v1, f, k - 1);
      assert Wire(s, f)[..k] == [first] + len[..k - 1];
      hide Run, Step, LengthBytes;
      QuietStep(s, v, first, len[..k - 1], v1);
    } else {
      LengthRun(s, v1, f);
      var part := f.payload[..k - 1 - |len|];
      assert Wire(s, f)[..k] == [first] + len + part;
      assert Start(v2, false) == Out(v2.(phase := Payload), [], 0);
      hide Run, Step, LengthBytes, Wire;
      QuietStep(s, v, first, len, v1);
      RunAppend(s, v, [first] + len, part);
      PayloadInside(s, v2.(phase := Payload), part);
    }
  }

  /** `k` bytes are some whole number of the frames. */
  predicate AtEnd(s: Setup, fs: seq<Frame>, k: nat)
    requires AllFit(s, fs)
  {
    k == 0 || (fs != [] && k >= |Wire(s, fs[0])| && AtEnd(s, fs[1..], k - |Wire(s, fs[0])|))
  }

  lemma AtEndFirst(s: Setup, fs: seq<Frame>, k: nat)
    requires AllFit(s, fs) && fs != [] && k > 0
    ensures AtEnd(s, fs, k) <==> k >= |Wire(s, fs[0])| && AtEnd(s, fs[1..], k - |Wire(s, fs[0])|)
  {
  }

  /** Past a first frame, the rest alone decides. */
  lemma PastFirst(s: Setup, v: View, fs: seq<Frame>, k: nat)
    requires Fresh(s, v) && AllFit(s, fs) && fs != [] && |Wire(s, fs[0])| <= k <= |WireAll(s, fs)|
    ensures Fresh(s, After(v, fs[0])) && k - |Wire(s, fs[0])| <= |WireAll(s, fs[1..])|
    ensures var o := Run(s, v, WireAll(s, fs)[..k]);
      var r := Run(s, After(v, fs[0]), WireAll(s, fs[1..])[..k - |Wire(s, fs[0])|]);
      o.ret == r.ret && o.view == r.view
  {
    hide Run, Wire, Shown, Fits, After;
    var wire, more := Wire(s, fs[0]), WireAll(s, fs[1..]);
    assert WireAll(s, fs) == wire + more;
    hide WireAll;
    PastFrame(s, v, fs[0], more[..k - |wire|]);
    assert (wire + more)[..k] == wire + more[..k - |wire|];
  }

  lemma PastFrame(s: Setup, v: View, f: Frame, more: seq<Byte>)
    requires Fresh(s, v) && Fits(s, f) && f.opcode != CLOSE
    ensures Fresh(s, After(v, f))
    ensures var o, r := Run(s, v, Wire(s, f) + more), Run(s, After(v, f), more);
      o.ret == r.ret && o.view == r.view
  {
    hide Run, Wire, Shown, Fits;
    FrameRead(s, v, f);
    RunAppend(s, v, Wire(s, f), more);
  }

  /** However the bytes are cut, the machine awaits a new frame exactly at the ends of frames. */
  lemma {:induction false} NewExactlyAtEnds(s: Setup, v: View, fs: seq<Frame>, k: nat)
    requires Fresh(s, v) && AllFit(s, fs) && k <= |WireAll(s, fs)|
    ensures var o := Run(s, v, WireAll(s, fs)[..k]); o.ret == 0 && (o.view.phase.New? <==> AtEnd(s, fs, k))
    decreases |fs|
  {
    if k > 0 {
      var wire, more := Wire(s, fs[0]), WireAll(s, fs[1..]);
      assert WireAll(s, fs) == wire + more;
      hide Run, Wire, WireAll, Shown, Fits, AtEnd;
      AtEndFirst(s, fs, k);
      if k < |wire| {
        FrameInside(s, v, fs[0], k);
        assert (wire + more)[..k] == wire[..k];
      } else {
        PastFirst(s, v, fs, k);
        NewExactlyAtEnds(s, After(v, fs[0]), fs[1..], k - |wire|);
      }
    }
  }
}
