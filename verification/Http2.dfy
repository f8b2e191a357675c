/** The HTTP/2 connection: the parser's state, the writer of frames, and the settings. */
module Http2 {
  import opened Http2Frames

  class Connection {
    var frameState: nat
    var count: nat
    var length: nat
    var kind: nat
    var flags: nat
    var streamId: nat
    var endHeaders: bool
    var credits: map<nat, int>
    var dep: nat
    var initialized: bool
    var peerWindow: int

    ghost function State(): View
      reads this
    {
      View(frameState, count, Header(length, kind, flags, streamId), endHeaders,
        credits, dep, initialized, peerWindow)
    }

    ghost predicate Valid()
      reads this
    {
      Ready(State())
    }

    /** A connection just established; the peer's settings start from the defaults. */
    constructor ()
      ensures Valid() && State().frameState == 0 && credits == map[0 := INITIAL_CREDIT] && !endHeaders && !initialized
    {
      frameState, count, length, kind, flags, streamId, endHeaders := 0, 0, 0, 0, 0, 0, false;
      credits, dep, initialized, peerWindow := map[0 := INITIAL_CREDIT], 0, false, INITIAL_CREDIT;
    }

    method Parse(c: Byte, a: Answer) returns (ret: int, events: seq<Event>)
      requires Valid()
      modifies this
      ensures Valid() && Out(State(), events, ret) == Step(old(State()), c, a)
    {
      if frameState == HEADER_LENGTH {
        ret, events := Payload(c, a);
        return;
      }
      ParseHeader(c);
      ret, events := 0, [];
      if frameState == HEADER_LENGTH { ret, events := HeaderComplete(a.created); }
    }

    method ParseHeader(c: Byte)
      requires frameState < HEADER_LENGTH
      modifies this`frameState, this`length, this`kind, this`flags, this`streamId
      ensures State() == HeaderByte(old(State()), c)
    {
      match frameState {
        case 0 => length := c;
        case 1 | 2 => length := (256 * length + c) % 0x1_0000_0000;
        case 3 => kind := c;
        case 4 => flags := c;
        case _ => streamId := (256 * streamId + c) % 0x1_0000_0000;
      }
      frameState := frameState + 1;
    }

    method HeaderComplete(created: bool) returns (ret: int, events: seq<Event>)
      requires Valid() && frameState == HEADER_LENGTH
      modifies this
      ensures Valid() && Out(State(), events, ret) == OpenFrame(old(State()), created)
    {
      count := 0;
      events := [Opened(Header(length, kind, flags, streamId))];
      var known := streamId == 0 || streamId in credits;
      if kind == SETTINGS {
        if streamId != 0 { return 1, events; }
      } else if kind == PING {
        if streamId != 0 || length != 8 { return 1, events; }
      } else if kind == CONTINUATION {
        if endHeaders { return 1, events; }
        endHeaders := flags / 4 % 2 == 1;
        if !known { return 1, events; }
      } else if kind == HEADERS {
        if streamId == 0 { return 1, events; }
        if !known && created { credits := credits[streamId := INITIAL_CREDIT]; }
        endHeaders := flags / 4 % 2 == 1;
        if streamId !in credits { return 1, events; }
      } else if kind == WINDOW_UPDATE {
        if length != 4 { return 1, events; }
      }
      if length == 0 { frameState := 0; }
      ret := 0;
    }

    method Payload(c: Byte, a: Answer) returns (ret: int, events: seq<Event>)
      requires Valid() && frameState == HEADER_LENGTH
      modifies this
      ensures Valid() && Out(State(), events, ret) == PayloadByte(old(State()), c, a)
    {
      if streamId != 0 && streamId !in credits { return FAULT, []; }
      count := count + 1;
      if kind == WINDOW_UPDATE || (kind == GOAWAY && 5 <= count <= 8) { dep := (256 * dep + c) % 0x1_0000_0000; }
      if (kind == HEADERS || kind == CONTINUATION) && !a.block { return 1, [Body(c)]; }
      if count != length { return 0, [Body(c)]; }
      ret := FrameEnds();
      events := [Body(c), Closed];
    }

    /** The end of a frame: the first one sets the connection's window, a WINDOW_UPDATE raises the
        window of its stream. */
    method FrameEnds() returns (ret: int)
      requires Valid() && HasStream(State())
      modifies this`frameState, this`count, this`initialized, this`credits, this`dep
      ensures Valid() && Out(State(), [Closed], ret) == EndOfFrame(old(State()))
    {
      frameState, count := 0, 0;
      if !initialized { credits := credits[0 := peerWindow]; }
      initialized := true;
      ret := 0;
      if kind == WINDOW_UPDATE {
        dep := dep % 0x8000_0000;
        CreditIgnoresTop(credits[streamId], old(dep));
        var (taken, credit) := Credited(credits[streamId], dep);
        if !taken { return 1; }
        credits := credits[streamId := credit];
      }
    }

    method ParseAll(bytes: seq<Byte>) returns (ret: int, events: seq<Event>)
      requires Valid()
      modifies this
      ensures Valid() && Out(State(), events, ret) == Run(old(State()), bytes)
    {
      ret, events := 0, [];
      var i := 0;
      assert bytes[..0] == [];
      while i < |bytes| && ret == 0
        invariant i <= |bytes| && Valid()
        invariant Out(State(), events, ret) == Run(old(State()), bytes[..i])
        invariant ret != 0 ==> Run(old(State()), bytes) == Run(old(State()), bytes[..i])
      {
        var more;
        ret, more := Parse(bytes[i], AGREE);
        RunFurther(old(State()), bytes, i);
        events := events + more;
        i := i + 1;
      }
      assert bytes[..|bytes|] == bytes;
    }
  }

  lemma RunFurther(v: View, bytes: seq<Byte>, i: nat)
    requires Ready(v) && i < |bytes| && Run(v, bytes[..i]).ret == 0
    ensures var o := Run(v, bytes[..i]); var next := Step(o.view, bytes[i], AGREE);
      && Run(v, bytes[..i + 1]) == Out(next.view, o.events + next.events, next.ret)
      && (next.ret != 0 ==> Run(v, bytes) == Run(v, bytes[..i + 1]))
  {
    hide Step, Run;
    Cut(bytes, i);
    RunAppend(v, bytes[..i], [bytes[i]]);
    LastOne(Run(v, bytes[..i]).view, bytes[i]);
    RunAppend(v, bytes[..i + 1], bytes[i + 1..]);
  }

  lemma Cut(bytes: seq<Byte>, i: nat)
    requires i < |bytes|
    ensures bytes[..i + 1] == bytes[..i] + [bytes[i]] && bytes == bytes[..i + 1] + bytes[i + 1..]
  {
  }

  // ---- writing frames

  /** Writes a header into the nine bytes before a payload of `len` bytes; a payload of data
      uses up credit. */
  method FrameWrite(buf: array<Byte>, at: nat, kind: nat, flags: nat, sid: nat, len: nat, credit: int)
    returns (wire: seq<Byte>, left: int)
    requires HEADER_LENGTH <= at && at + len <= buf.Length
    modifies buf
    ensures buf[at..] == old(buf[at..]) && buf[..at - HEADER_LENGTH] == old(buf[..at - HEADER_LENGTH])
    ensures wire == HeaderBytes(Header(len, kind, flags, sid)) + old(buf[at..at + len])
    ensures left == if kind == DATA then credit - len else credit
  {
    var p := at - HEADER_LENGTH;
    buf[p], buf[p + 1], buf[p + 2] := Digit(len, 0x1_0000), Digit(len, 0x100), Digit(len, 1);
    buf[p + 3], buf[p + 4] := Digit(kind, 1), Digit(flags, 1);
    buf[p + 5], buf[p + 6] := Digit(sid, 0x100_0000), Digit(sid, 0x1_0000);
    buf[p + 7], buf[p + 8] := Digit(sid, 0x100), Digit(sid, 1);
    left := if kind == DATA then credit - len else credit;
    wire := buf[p..at + len];
    assert buf[p..at] == HeaderBytes(Header(len, kind, flags, sid));
  }

  /** A frame written by one connection is split off by another as it was, whatever the reader
      was left with. */
  method WriteAndRead(buf: array<Byte>, at: nat, f: Frame, reader: Connection) returns (events: seq<Event>)
    requires HEADER_LENGTH <= at && at + |f.payload| <= buf.Length && buf[at..at + |f.payload|] == f.payload
    requires reader.Valid() && reader.frameState == 0 && Legal(reader.State(), f)
    modifies buf, reader
    ensures events == Shown(f) && reader.State() == After(old(reader.State()), f)
  {
    var wire, left := FrameWrite(buf, at, f.kind, f.flags, f.sid, |f.payload|, 0);
    assert wire == Wire(f);
    FrameRead(reader.State(), f);
    var ret;
    ret, events := reader.ParseAll(wire);
  }

  /** A payload is sent on a stream, and the peer then raises the stream's window.  The window goes
      below zero when more is sent than its credit, which nothing prevents; an update is then
      refused unless it makes up for all that is missing. */
  method UpdateAfterSending(buf: array<Byte>, at: nat, flags: nat, len: nat, reader: Connection, update: Frame)
    returns (ret: int)
    requires HEADER_LENGTH <= at && at + len <= buf.Length
    requires reader.Valid() && reader.frameState == 0 && reader.initialized
    requires update.kind == WINDOW_UPDATE && update.sid in reader.credits && Deliverable(reader.State(), update)
    requires -0x8000_0000 <= reader.credits[update.sid] - len && reader.credits[update.sid] < 0x8000_0000
    modifies buf, reader
    ensures reader.Valid()
    ensures var credit := old(reader.credits[update.sid]) - len + Increment(update) % 0x8000_0000;
      && ret == (if 0 <= credit < 0x8000_0000 then 0 else 1)
      && (ret == 0 ==> update.sid in reader.credits && reader.credits[update.sid] == credit)
  {
    var sid := update.sid;
    var wire, left := FrameWrite(buf, at, DATA, flags, sid, len, reader.credits[sid]);
    reader.credits := reader.credits[sid := left];
    WindowUpdateRead(reader.State(), update);
    hide Run, Increment, Wire;
    var events;
    ret, events := reader.ParseAll(Wire(update));
  }

  const REQUEST := Frame(HEADERS, 4, 1, [0x82])
  const UPDATE := Frame(WINDOW_UPDATE, 0, 1, [0, 0, 0, 1])

  /** The first request on a connection makes a stream with the window all streams start with. */
  lemma RequestRead(v: View)
    requires Ready(v) && v.frameState == 0 && !v.initialized && 1 !in v.credits
    ensures var o := Run(v, Wire(REQUEST));
      && o.ret == 0 && o.view.frameState == 0 && o.view.initialized
      && 1 in o.view.credits && o.view.credits[1] == INITIAL_CREDIT
  {
    RequestLegal(v);
    FrameRead(v, REQUEST);
    hide Run, Wire, Legal, Collected;
  }

  lemma RequestLegal(v: View)
    requires Ready(v)
    ensures Legal(v, REQUEST)
  {
  }

  lemma UpdateOfOne(v: View)
    requires 1 in v.credits
    ensures Deliverable(v, UPDATE) && Increment(UPDATE) == 1
  {
  }

  /** A run: a new connection, a request on stream 1, an answer of two bytes more than the window,
      and an update of one byte, which is refused though the increment is a legal one. */
  method NegativeWindowRefused(buf: array<Byte>) returns (ret: int)
    requires buf.Length == HEADER_LENGTH + 65537
    modifies buf
    ensures ret == 1
  {
    hide Run, Wire, Deliverable, Legal, After, Increment, Shown;
    var reader := new Connection();
    RequestRead(reader.State());
    var events;
    ret, events := reader.ParseAll(Wire(REQUEST));
    UpdateOfOne(reader.State());
    ret := UpdateAfterSending(buf, HEADER_LENGTH, 0, 65537, reader, UPDATE);
  }
}

/** The settings of a connection: what is sent of them and how it is read. */
module Http2Settings {
  import opened Http2Frames

  type U32 = n: nat | n < 0x1_0000_0000

  const COUNT := 7
  const LENGTH := 6

  const DEFAULTS: seq<U32> := [0, 4096, 1, 100, 65535, 16384, 0xffff_ffff]

  function Entry(n: nat, value: U32): (r: seq<Byte>)
    ensures |r| == LENGTH
  {
    [Digit(n, 0x100), Digit(n, 1), Digit(value, 0x100_0000), Digit(value, 0x1_0000), Digit(value, 0x100), Digit(value, 1)]
  }

  function Applied(table: seq<U32>, e: seq<Byte>): (r: seq<U32>)
    requires |table| == COUNT && |e| >= LENGTH
    ensures |r| == COUNT
  {
    var a: nat := 0x100 * e[0] as nat + e[1];
    if a < COUNT then table[a := Four(e[2], e[3], e[4], e[5])] else table
  }

  /** A payload, entry by entry. */
  function AppliedAll(table: seq<U32>, buf: seq<Byte>): (r: seq<U32>)
    requires |table| == COUNT
    ensures |r| == COUNT
    decreases |buf|
  {
    if |buf| < LENGTH then table else AppliedAll(Applied(table, buf), buf[LENGTH..])
  }

  lemma AppliedFirst(table: seq<U32>, buf: seq<Byte>)
    requires |table| == COUNT && |buf| >= LENGTH
    ensures AppliedAll(table, buf) == AppliedAll(Applied(table, buf), buf[LENGTH..])
  {
  }

  lemma AppliedNone(table: seq<U32>, buf: seq<Byte>)
    requires |table| == COUNT && |buf| < LENGTH
    ensures AppliedAll(table, buf) == table
  {
  }

  method InterpretEntry(settings: array<U32>, e: seq<Byte>)
    requires settings.Length == COUNT && |e| >= LENGTH
    modifies settings
    ensures settings[..] == Applied(old(settings[..]), e)
  {
    var a: nat := 0x100 * e[0] as nat + e[1];
    if a < COUNT { settings[a] := Four(e[2], e[3], e[4], e[5]); }
  }

  method InterpretPayload(settings: array<U32>, buf: seq<Byte>) returns (ret: int)
    requires settings.Length == COUNT
    modifies settings
    ensures settings[..] == AppliedAll(old(settings[..]), buf)
    ensures ret == if |buf| % LENGTH == 0 then 0 else 1
  {
    hide Applied, AppliedAll;
    if |buf| < LENGTH {
      AppliedNone(settings[..], buf);
      return if |buf| == 0 then 0 else 1;
    }
    var rest := buf;
    while |rest| >= LENGTH
      invariant AppliedAll(settings[..], rest) == AppliedAll(old(settings[..]), buf)
      invariant |rest| % LENGTH == |buf| % LENGTH
    {
      AppliedFirst(settings[..], rest);
      InterpretEntry(settings, rest);
      rest := rest[LENGTH..];
    }
    AppliedNone(settings[..], rest);
    ret := if |rest| > 0 then 1 else 0;
  }

  /** The entries from `n` on that differ from the defaults. */
  function Differing(mine: seq<U32>, n: nat): seq<Byte>
    requires |mine| == COUNT && n <= COUNT
    decreases COUNT - n
  {
    if n == COUNT then []
    else (if mine[n] != DEFAULTS[n] then Entry(n, mine[n]) else []) + Differing(mine, n + 1)
  }

  method SettingsWrite(mine: array<U32>, n: nat, buf: array<Byte>, at: nat)
    requires mine.Length == COUNT && n < COUNT && at + LENGTH <= buf.Length
    modifies buf
    ensures buf[..at + LENGTH] == old(buf[..at]) + Entry(n, mine[n])
  {
    buf[at], buf[at + 1] := Digit(n, 0x100), Digit(n, 1);
    buf[at + 2], buf[at + 3] := Digit(mine[n], 0x100_0000), Digit(mine[n], 0x1_0000);
    buf[at + 4], buf[at + 5] := Digit(mine[n], 0x100), Digit(mine[n], 1);
  }

  lemma DifferingStep(mine: seq<U32>, n: nat, done: seq<Byte>)
    requires |mine| == COUNT && n < COUNT
    ensures done + Differing(mine, n) ==
      (if mine[n] != DEFAULTS[n] then done + Entry(n, mine[n]) else done) + Differing(mine, n + 1)
  {
    hide Entry;
  }

  /** The payload of the settings frame that a connection sends of its own settings. */
  method MySettings(mine: array<U32>, buf: array<Byte>, at: nat) returns (m: nat)
    requires mine.Length == COUNT && at + 6 * COUNT <= buf.Length
    modifies buf
    ensures m <= 6 * COUNT && buf[at..at + m] == Differing(mine[..], 1)
  {
    hide Entry, Differing;
    m := 0;
    var n := 1;
    ghost var before, done := buf[..at], [];
    assert [] + Differing(mine[..], 1) == Differing(mine[..], 1);
    while n < COUNT
      invariant 1 <= n <= COUNT && m <= 6 * (n - 1) && buf[..at + m] == before + done
      invariant done + Differing(mine[..], n) == Differing(mine[..], 1)
    {
      DifferingStep(mine[..], n, done);
      if mine[n] != DEFAULTS[n] {
        SettingsWrite(mine, n, buf, at + m);
        assert before + done + Entry(n, mine[n]) == before + (done + Entry(n, mine[n]));
        done := done + Entry(n, mine[n]);
        m := m + LENGTH;
      }
      n := n + 1;
    }
    DifferingEnd(mine[..], done);
    assert buf[at..at + m] == buf[..at + m][at..] == done;
  }

  lemma DifferingEnd(mine: seq<U32>, done: seq<Byte>)
    requires |mine| == COUNT
    ensures done + Differing(mine, COUNT) == done
  {
  }

  lemma EntryBack(table: seq<U32>, n: nat, value: U32, rest: seq<Byte>)
    requires |table| == COUNT && n < COUNT
    ensures AppliedAll(table, Entry(n, value) + rest) == AppliedAll(table[n := value], rest)
  {
    var e := Entry(n, value) + rest;
    assert e[LENGTH..] == rest && e[..LENGTH] == Entry(n, value);
    EntryRead(table, n, value, e);
    AppliedFirst(table, e);
    hide *;
  }

  lemma SmallDigits(n: nat)
    requires n < COUNT
    ensures Digit(n, 0x100) == 0 && Digit(n, 1) == n
  {
  }

  /** An entry by its bytes: the table takes the four of the value at the number of the two. */
  lemma EntryBytes(table: seq<U32>, e: seq<Byte>, n: nat, value: U32)
    requires |table| == COUNT && n < COUNT && |e| >= LENGTH && e[0] == 0 && e[1] == n
    requires Four(e[2], e[3], e[4], e[5]) == value
    ensures Applied(table, e) == table[n := value]
  {
    hide Four;
  }

  lemma EntryRead(table: seq<U32>, n: nat, value: U32, e: seq<Byte>)
    requires |table| == COUNT && n < COUNT && |e| >= LENGTH && e[..LENGTH] == Entry(n, value)
    ensures Applied(table, e) == table[n := value]
  {
    hide Digit, Four, Applied;
    SmallDigits(n);
    DigitsBack(value);
    assert forall i :: 0 <= i < LENGTH ==> e[i] == e[..LENGTH][i];
    EntryBytes(table, e, n, value);
    hide *;
  }

  lemma OneMore(table: seq<U32>, mine: seq<U32>, next: seq<U32>, n: nat)
    requires |mine| == |table| == COUNT && n < COUNT && next == table[n := mine[n]]
    ensures next[..n + 1] + mine[n + 1..] == table[..n] + mine[n..]
  {
  }

  /** From `n` on the sender's settings are reproduced, below it the table stays. */
  lemma {:induction false} Reproduced(mine: seq<U32>, table: seq<U32>, n: nat)
    requires |mine| == |table| == COUNT && n <= COUNT
    requires forall i :: n <= i < COUNT ==> table[i] == DEFAULTS[i]
    ensures AppliedAll(table, Differing(mine, n)) == table[..n] + mine[n..]
    decreases COUNT - n
  {
    hide AppliedAll, Entry;
    if n < COUNT {
      var next := if mine[n] != DEFAULTS[n] then table[n := mine[n]] else table;
      Reproduced(mine, next, n + 1);
      DifferingStep(mine, n, []);
      assert [] + Differing(mine, n) == Differing(mine, n);
      if mine[n] != DEFAULTS[n] {
        EntryBack(table, n, mine[n], Differing(mine, n + 1));
        assert [] + Entry(n, mine[n]) == Entry(n, mine[n]);
      } else {
        assert [] + Differing(mine, n + 1) == Differing(mine, n + 1);
      }
      OneMore(table, mine, next, n);
    } else {
      DifferingEnd(mine, []);
      AppliedNone(table, []);
    }
  }

  /** A peer that starts from the defaults and reads what is sent has the sender's table, except
      for the place 0 that is never sent. */
  lemma SettingsRoundTrip(mine: seq<U32>)
    requires |mine| == COUNT
    ensures var theirs := AppliedAll(DEFAULTS, Differing(mine, 1));
      (forall i :: 1 <= i < COUNT ==> theirs[i] == mine[i]) && theirs[0] == 0
    ensures AppliedAll(DEFAULTS, Differing(mine, 1)) == mine <==> mine[0] == 0
  {
    hide AppliedAll, Differing;
    Reproduced(mine, DEFAULTS, 1);
    var theirs := AppliedAll(DEFAULTS, Differing(mine, 1));
    assert theirs == [DEFAULTS[0]] + mine[1..];
    if mine[0] == 0 { assert theirs == mine; }
  }
}
