/** The client's receive machine: one call per byte from the server. */
module WebsocketClient {
  import opened WebsocketSpec
  import opened WebsocketFrames

  const LWS_MAX_SOCKET_IO_BUF := 4096

  /** Spare bytes behind the receive buffer; the first may hold a terminator. */
  const LWS_SEND_BUFFER_POST_PADDING := 4

  class Client {
    const setup: Setup
    const rxUserBuffer: array<Byte>
    var rxUserBufferHead: nat
    var phase: Phase
    var opcode: nat
    var rsv: nat
    var final: bool
    var frameIsBinary: bool
    var thisFrameMasked: bool
    var allZeroNonce: bool
    var nonce: seq<Byte>
    var frameMaskIndex: nat
    var rxPacketLength: nat
    var pingPending: bool
    var pingPayload: array?<Byte>
    var pingPayloadLen: nat
    var link: Link

    ghost predicate Shape()
      reads this
    {
      && setup.size > 0 && rxUserBuffer.Length == setup.size + LWS_SEND_BUFFER_POST_PADDING && rxUserBufferHead <= setup.size
      && pingPayload != rxUserBuffer && pingPayloadLen <= (if pingPayload == null then 0 else pingPayload.Length)
    }

    ghost function State(): View
      requires Shape()
      reads this, rxUserBuffer, pingPayload
    {
      View(phase, opcode, rsv, final, frameIsBinary, thisFrameMasked, allZeroNonce, nonce, frameMaskIndex,
        rxPacketLength, rxUserBuffer[..rxUserBufferHead], pingPending,
        if pingPayload == null then [] else pingPayload[..pingPayloadLen], link)
    }

    ghost predicate Valid()
      reads this, rxUserBuffer, pingPayload
    {
      Shape() && Ready(State()) && if phase.Payload? then rxUserBufferHead < setup.size else rxUserBufferHead == 0
    }

    /** A connection just established; a protocol that names no buffer size gets the default. */
    constructor (rxBufferSize: nat, lp64: bool)
      ensures Valid() && (setup.size >= 125 ==> Fresh(setup, State()))
      ensures setup.lp64 == lp64 && setup.size == (if rxBufferSize == 0 then LWS_MAX_SOCKET_IO_BUF else rxBufferSize)
      ensures State().phase.New? && State().link.Established? && !State().pingPending
      ensures fresh(rxUserBuffer) && pingPayload == null
    {
      var n := if rxBufferSize == 0 then LWS_MAX_SOCKET_IO_BUF else rxBufferSize;
      setup := Setup(n, lp64);
      rxUserBuffer := new Byte[n + LWS_SEND_BUFFER_POST_PADDING];
      rxUserBufferHead, phase, opcode, rsv, final, frameIsBinary := 0, New, 0, 0, false, false;
      thisFrameMasked, allZeroNonce, nonce, frameMaskIndex, rxPacketLength := false, true, [0, 0, 0, 0], 0, 0;
      pingPending, pingPayload, pingPayloadLen, link := false, null, 0, Established;
    }

    /** Keeps the payload of a ping until it can be answered. */
    method StashPing()
      requires Shape()
      modifies this`pingPayload, this`pingPayloadLen, this`pingPending, pingPayload
      ensures Shape() && (pingPayload == old(pingPayload) || fresh(pingPayload))
      ensures State() == old(State()).(ping := old(State()).held, pingPending := true)
    {
      if pingPayload != null && pingPayload.Length < rxUserBufferHead { pingPayload := null; }
      if pingPayload == null { pingPayload := new Byte[rxUserBufferHead]; }
      for i := 0 to rxUserBufferHead
        invariant pingPayload != null && pingPayload.Length >= rxUserBufferHead
        invariant pingPayload == old(pingPayload) || fresh(pingPayload)
        invariant pingPayload != rxUserBuffer && pingPayload[..i] == rxUserBuffer[..i]
        invariant rxUserBuffer[..rxUserBufferHead] == old(rxUserBuffer[..rxUserBufferHead])
      {
        pingPayload[i] := rxUserBuffer[i];
      }
      pingPayloadLen := rxUserBufferHead;
      pingPending := true;
    }

    method ServePing() returns (events: seq<Event>)
      requires Shape() && opcode == PING
      modifies this, pingPayload
      ensures Shape() && (pingPayload == old(pingPayload) || fresh(pingPayload))
      ensures Out(State(), events, 0) == Spill(old(State()), false) == Spill(old(State()), true)
    {
      events := [];
      if !pingPending && rxUserBufferHead <= 128 - 4 {
        StashPing();
        events := [AskWritable];
      }
      rxUserBufferHead := 0;
    }

    /** Puts a zero behind what is passed on, into the padding if the buffer is full. */
    method Terminate()
      requires Shape()
      modifies rxUserBuffer
      ensures Shape() && State() == old(State()) && rxUserBuffer[rxUserBufferHead] == 0
    {
      ghost var held := rxUserBuffer[..rxUserBufferHead];
      rxUserBuffer[rxUserBufferHead] := 0;
      assert rxUserBuffer[..rxUserBufferHead] == held;
    }

    /** Serves what the buffer holds, by the kind of the frame. */
    method SpillBuffer(refuse: bool) returns (ret: int, events: seq<Event>)
      requires Shape()
      modifies this, rxUserBuffer, pingPayload
      ensures Shape() && (pingPayload == old(pingPayload) || fresh(pingPayload))
      ensures Out(State(), events, ret) == Spill(old(State()), refuse)
      ensures events != [] && (events[0].Receive? || events[0].ReceivePong?) ==> rxUserBuffer[old(rxUserBufferHead)] == 0
    {
      events := [];
      if opcode == CLOSE {
        if link == AwaitingCloseAck { return -1, []; }
        events := [SendClose(rxUserBuffer[..rxUserBufferHead])];
        link := ReturnedClose;
        return -1, events;
      } else if opcode == PING {
        events := ServePing();
        return 0, events;
      } else if opcode == PONG {
        Terminate();
        events := [ReceivePong(rxUserBuffer[..rxUserBufferHead])];
        if refuse { return 1, events; }
      } else if opcode <= BINARY {
        if rxUserBufferHead > 0 {
          Terminate();
          events := [Receive(rxUserBuffer[..rxUserBufferHead], frameIsBinary)];
          if refuse { return 1, events; }
        }
      }
      rxUserBufferHead := 0;
      ret := 0;
    }

    method StartPayload(refuse: bool) returns (ret: int, events: seq<Event>)
      requires Shape()
      modifies this, rxUserBuffer, pingPayload
      ensures Shape() && (pingPayload == old(pingPayload) || fresh(pingPayload))
      ensures Out(State(), events, ret) == Start(old(State()), refuse)
    {
      if rxPacketLength > 0 {
        phase := Payload;
        return 0, [];
      }
      phase := New;
      ret, events := SpillBuffer(refuse);
    }

    method HaveLength(refuse: bool) returns (ret: int, events: seq<Event>)
      requires Shape()
      modifies this, rxUserBuffer, pingPayload
      ensures Shape() && (pingPayload == old(pingPayload) || fresh(pingPayload))
      ensures Out(State(), events, ret) == Begin(old(State()), refuse)
    {
      if thisFrameMasked {
        phase := Key(0);
        return 0, [];
      }
      ret, events := StartPayload(refuse);
    }

    /** The bytes before the payload. */
    method Header(c: Byte, refuse: bool) returns (ret: int, events: seq<Event>)
      requires Valid() && !phase.Payload?
      modifies this, rxUserBuffer, pingPayload
      ensures Shape() && (pingPayload == old(pingPayload) || fresh(pingPayload))
      ensures Out(State(), events, ret) == Step(setup, old(State()), c, refuse)
    {
      match phase
      case New =>
        opcode, rsv, final := c % 16, c / 16 % 8 * 16, c >= 128;
        if opcode == TEXT || opcode == BINARY { frameIsBinary := opcode == BINARY; }
        phase := HdrLen;
        return 0, [];
      case HdrLen => ret, events := LengthByte(c, refuse);
      case Len16(_) => ret, events := MediumLengthByte(c, refuse);
      case Len64(_) => ret, events := LongLengthByte(c, refuse);
      case Key(_) => ret, events := KeyByte(c, refuse);
    }

    method LengthByte(c: Byte, refuse: bool) returns (ret: int, events: seq<Event>)
      requires Valid() && phase.HdrLen?
      modifies this, rxUserBuffer, pingPayload
      ensures Shape() && (pingPayload == old(pingPayload) || fresh(pingPayload))
      ensures Out(State(), events, ret) == StepHdrLen(old(State()), c, refuse)
    {
      thisFrameMasked := c >= 128;
      if c % 128 == 126 || c % 128 == 127 {
        if opcode >= 8 { return -1, []; }
        phase := if c % 128 == 126 then Len16(2) else Len64(8);
        return 0, [];
      }
      rxPacketLength := c;
      ret, events := HaveLength(refuse);
    }

    method MediumLengthByte(c: Byte, refuse: bool) returns (ret: int, events: seq<Event>)
      requires Valid() && phase.Len16?
      modifies this, rxUserBuffer, pingPayload
      ensures Shape() && (pingPayload == old(pingPayload) || fresh(pingPayload))
      ensures Out(State(), events, ret) == StepLen16(old(State()), c, refuse)
    {
      if phase.left == 2 {
        rxPacketLength, phase := 256 * c, Len16(1);
        return 0, [];
      }
      rxPacketLength := rxPacketLength + c;
      ret, events := HaveLength(refuse);
    }

    method KeyByte(c: Byte, refuse: bool) returns (ret: int, events: seq<Event>)
      requires Valid() && phase.Key?
      modifies this, rxUserBuffer, pingPayload
      ensures Shape() && (pingPayload == old(pingPayload) || fresh(pingPayload))
      ensures Out(State(), events, ret) == StepKey(old(State()), c, refuse)
    {
      var i := phase.index;
      nonce := nonce[i := c];
      if c != 0 { allZeroNonce := false; }
      if i < 3 {
        phase := Key(i + 1);
        return 0, [];
      }
      ret, events := StartPayload(refuse);
    }

    method LongLengthByte(c: Byte, refuse: bool) returns (ret: int, events: seq<Event>)
      requires Valid() && phase.Len64?
      modifies this, rxUserBuffer, pingPayload
      ensures Shape() && (pingPayload == old(pingPayload) || fresh(pingPayload))
      ensures Out(State(), events, ret) == StepLen64(setup, old(State()), c, refuse)
    {
      var left := phase.left;
      if left == 8 {
        if c >= 128 { return -1, []; }
        rxPacketLength := if setup.lp64 then c * Weight(7) else 0;
      } else if left <= 4 || setup.lp64 {
        rxPacketLength := rxPacketLength + c * Weight(left - 1);
      }
      if left > 1 {
        phase := Len64(left - 1);
        return 0, [];
      }
      ret, events := HaveLength(refuse);
    }

    /** Unmasks a byte and puts it into the buffer. */
    method StoreByte(c: Byte)
      requires Valid() && phase.Payload?
      modifies this`frameMaskIndex, this`rxUserBufferHead, this`rxPacketLength, rxUserBuffer
      ensures Shape()
      ensures var v := old(State()); var plain := !v.masked || v.zeroNonce;
        State() == v.(held := v.held + [if plain then c else Unmask(c, v.nonce[v.maskIndex % 4])],
          length := v.length - 1, maskIndex := if plain then v.maskIndex else v.maskIndex + 1)
    {
      hide Unmask;
      var b := c;
      if thisFrameMasked && !allZeroNonce {
        b := Unmask(c, nonce[frameMaskIndex % 4]);
        frameMaskIndex := frameMaskIndex + 1;
      }
      rxUserBuffer[rxUserBufferHead] := b;
      rxUserBufferHead := rxUserBufferHead + 1;
      rxPacketLength := rxPacketLength - 1;
      assert rxUserBuffer[..rxUserBufferHead] == old(rxUserBuffer[..rxUserBufferHead]) + [b];
    }

    method PayloadByte(c: Byte, refuse: bool) returns (ret: int, events: seq<Event>)
      requires Valid() && phase.Payload?
      modifies this, rxUserBuffer, pingPayload
      ensures Shape() && (pingPayload == old(pingPayload) || fresh(pingPayload))
      ensures Out(State(), events, ret) == StepPayload(setup, old(State()), c, refuse)
    {
      hide Spill, Unmask;
      StoreByte(c);
      if rxPacketLength == 0 {
        phase := New;
        ret, events := SpillBuffer(refuse);
      } else if rxUserBufferHead != setup.size {
        ret, events := 0, [];
      } else {
        ret, events := SpillBuffer(refuse);
      }
    }

    method ReceiveByte(c: Byte, refuse: bool) returns (ret: int, events: seq<Event>)
      requires Valid()
      modifies this, rxUserBuffer, pingPayload
      ensures Shape() && (ret == 0 ==> Valid()) && (pingPayload == old(pingPayload) || fresh(pingPayload))
      ensures Out(State(), events, ret) == Step(setup, old(State()), c, refuse)
    {
      if phase.Payload? {
        ret, events := PayloadByte(c, refuse);
      } else {
        ret, events := Header(c, refuse);
      }
      HeldBetween(setup, old(State()), c, refuse);
    }

    /** Everything the server sends, until the connection ends. */
    method ReceiveAll(bytes: seq<Byte>) returns (ret: int, events: seq<Event>)
      requires Valid()
      modifies this, rxUserBuffer, pingPayload
      ensures Shape() && Out(State(), events, ret) == Run(setup, old(State()), bytes)
    {
      hide Step, Run;
      ret, events := 0, [];
      var i := 0;
      RunNothing(setup, State());
      assert bytes[..0] == [];
      while i < |bytes| && ret == 0
        invariant i <= |bytes| && Shape() && (ret == 0 ==> Valid())
        invariant pingPayload == old(pingPayload) || fresh(pingPayload)
        invariant Out(State(), events, ret) == Run(setup, old(State()), bytes[..i])
        invariant ret != 0 ==> Run(setup, old(State()), bytes) == Run(setup, old(State()), bytes[..i])
      {
        ghost var before := State();
        var more;
        ret, more := ReceiveByte(bytes[i], false);
        RunFurther(setup, old(State()), bytes, i);
        events := events + more;
        i := i + 1;
      }
      assert bytes[..|bytes|] == bytes;
    }
  }

  lemma SpillEmpties(v: View, refuse: bool)
    ensures var o := Spill(v, refuse); o.ret == 0 ==> o.view.held == [] && o.view.phase == v.phase
  {
  }

  lemma BeginEmpties(v: View, refuse: bool)
    requires v.held == []
    ensures Begin(v, refuse).ret == 0 ==> Begin(v, refuse).view.held == []
    ensures Start(v, refuse).ret == 0 ==> Start(v, refuse).view.held == []
  {
    SpillEmpties(v.(phase := New), refuse);
    hide Spill;
  }

  lemma LongEmpties(s: Setup, v: View, c: Byte, refuse: bool)
    requires Ready(v) && v.phase.Len64? && v.held == []
    ensures var o := StepLen64(s, v, c, refuse); o.ret == 0 ==> o.view.held == []
  {
    forall w: View | w.held == [] ensures Begin(w, refuse).ret == 0 ==> Begin(w, refuse).view.held == [] {
      BeginEmpties(w, refuse);
    }
    hide Begin, Weight;
  }

  lemma KeyEmpties(v: View, c: Byte, refuse: bool)
    requires Ready(v) && v.phase.Key? && v.held == []
    ensures var o := StepKey(v, c, refuse); o.ret == 0 ==> o.view.held == []
  {
    BeginEmpties(v.(nonce := v.nonce[v.phase.index := c], zeroNonce := v.zeroNonce && c == 0), refuse);
    hide Start;
  }

  lemma ShortEmpties(v: View, c: Byte, refuse: bool)
    requires Ready(v) && v.held == []
    ensures v.phase.HdrLen? && StepHdrLen(v, c, refuse).ret == 0 ==> StepHdrLen(v, c, refuse).view.held == []
    ensures v.phase.Len16? && StepLen16(v, c, refuse).ret == 0 ==> StepLen16(v, c, refuse).view.held == []
  {
    hide Begin;
    forall w: View | w.held == [] ensures Begin(w, refuse).ret == 0 ==> Begin(w, refuse).view.held == [] {
      BeginEmpties(w, refuse);
    }
  }

  lemma HeldBeforePayload(s: Setup, v: View, c: Byte, refuse: bool)
    requires Ready(v) && !v.phase.Payload? && v.held == []
    ensures var o := Step(s, v, c, refuse); o.ret == 0 ==> o.view.held == []
  {
    match v.phase
    case New => assert StepNew(v, c).view.held == [];
    case Len64(_) => LongEmpties(s, v, c, refuse);
    case Key(_) => KeyEmpties(v, c, refuse);
    case _ => ShortEmpties(v, c, refuse);
    hide StepNew, StepHdrLen, StepLen16, StepLen64, StepKey;
  }

  /** The buffer is full only as long as it takes to pass it on. */
  lemma HeldBetween(s: Setup, v: View, c: Byte, refuse: bool)
    requires Ready(v) && s.size > 0 && if v.phase.Payload? then |v.held| < s.size else v.held == []
    ensures var o := Step(s, v, c, refuse);
      o.ret == 0 ==> if o.view.phase.Payload? then |o.view.held| < s.size else o.view.held == []
  {
    if v.phase.Payload? {
      forall w: View ensures var o := Spill(w, refuse); o.ret == 0 ==> o.view.held == [] { SpillEmpties(w, refuse); }
      hide Spill, Unmask;
    } else {
      HeldBeforePayload(s, v, c, refuse);
      hide Step;
    }
  }

  lemma RunFurther(s: Setup, v: View, bytes: seq<Byte>, i: nat)
    requires Ready(v) && i < |bytes| && Run(s, v, bytes[..i]).ret == 0
    ensures var o := Run(s, v, bytes[..i]); var next := Step(s, o.view, bytes[i], false);
      && Run(s, v, bytes[..i + 1]) == Out(next.view, o.events + next.events, next.ret)
      && (next.ret != 0 ==> Run(s, v, bytes) == Run(s, v, bytes[..i + 1]))
  {
    assert bytes[..i + 1] == bytes[..i] + [bytes[i]] && bytes == bytes[..i + 1] + bytes[i + 1..];
    hide Step, Run;
    var o := Run(s, v, bytes[..i]);
    RunAppend(s, v, bytes[..i], [bytes[i]]);
    LastOne(s, o.view, bytes[i]);
    RunAppend(s, v, bytes[..i + 1], bytes[i + 1..]);
  }
}
