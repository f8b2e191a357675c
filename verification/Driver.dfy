/** The driver's system calls, one at a time: that no call starts while another waits is an
    assumption, since the semaphore is let go at every wait.  Interrupts and the hardware run
    between their steps, as told by a script that stands for the outside. */
module Driver {
  import opened Registers
  import opened Pdma
  import opened UserSource
  import opened Transmit

  datatype State = Idle | Tx | TxStreaming | TxStopping | Rx | RxStreaming | RxStopping

  predicate Transmitting(s: State) { s.Tx? || s.TxStreaming? || s.TxStopping? }

  predicate Receiving(s: State) { s.Rx? || s.RxStreaming? || s.RxStopping? }

  const EIO := 5
  const EAGAIN := 11
  const EBADFD := 77
  const ERESTARTSYS := 512

  /** No error number of the driver's: the call never comes back. */
  const NEVER := 9999

  /** Something outside the running system call. */
  datatype Happening =
    | TxFinish
    | RxFinish
    | Irq(tx: Attempt, rx: Attempt, room: nat)
    | Exciter(enabled: bool, almostFull: bool)

  /** What happens between two steps of a call, and what the call finds afterwards: whether
      the hardware reports an error, whether the process has a signal pending, how its next
      attempts to start a transfer fare, and how the receive ring stands. */
  datatype Moment = Moment(happenings: seq<Happening>, error: bool, signal: bool, tx: Attempt, rx: Attempt,
    room: nat, received: nat)

  /** Once the script is over the process is interrupted wherever it can be. */
  const THE_END := Moment([], false, true, Attempt(true, true), Attempt(true, true), 0, 0)

  class Device {
    const t: Transmitter
    const rx: Channel
    const threshold: nat
    var state: State
    var script: seq<Moment>

    /** A started transmit slot implies a transmit state, a started receive slot a receive state. */
    ghost predicate HalfDuplex()
      reads this, t, t.tx, rx
    {
      && (t.tx.Pending() > 0 ==> Transmitting(state))
      && (rx.Pending() > 0 ==> Receiving(state))
    }

    ghost predicate Valid()
      reads this, t, t.source, t.source.data, t.tx, rx
    {
      t.Valid() && rx.Valid() && rx.inUse && rx != t.tx && HalfDuplex()
    }

    /** What goes on between two steps of a call. */
    twostate predicate Goes()
      reads this, t, t.source, t.source.data, t.tx, rx
    {
      && state == old(state) && t.written == old(t.written) && t.cleared == old(t.cleared)
      && t.source.Valid() && old(t.source.Valid())
      && |t.source.Queue()| <= old(|t.source.Queue()|) && old(t.handed) <= t.handed
      && (old(t.tx.Pending()) == 0 ==>
            t.tx.Pending() == 0 && t.handed == old(t.handed) && t.source.Queue() == old(t.source.Queue()))
      && (old(rx.Pending()) == 0 ==> rx.Pending() == 0)
    }

    constructor (order: nat, frameSize: nat, threshold: nat, autoTx: bool, pingPongMode: int, script: seq<Moment>)
      requires order >= 2
      ensures Valid() && state == Idle && t.written == [] && t.tx.Pending() == 0 == rx.Pending()
      ensures fresh(t) && fresh(t.source) && fresh(t.source.data) && fresh(t.tx) && fresh(rx)
      ensures this.script == script && this.threshold == threshold
      ensures t.handed == [] && Stopped() && Drained() && Room() == Ceiling() && t.source.size == Pow2(order)
      ensures Room() == Pow2(order) - 4
    {
      var c := new Channel();
      var ret := c.Request(pingPongMode);
      t := new Transmitter(order, frameSize, autoTx, pingPongMode);
      rx, state := c, Idle;
      this.threshold, this.script := threshold, script;
    }

    /** `rx_exec`: a transfer is started when a slot is free and the receive ring has room for
        more than a word. */
    method RxExec(env: Attempt, room: nat) returns (result: int)
      requires rx.Valid() && rx.inUse
      modifies rx
      ensures rx.Valid() && rx.inUse && result == if env.busy then -EBUSY else 0
      ensures if !env.busy && old(rx.Pending()) < 2 && t.frameSize > 0 && room / 4 > 1
        then rx.accepted == old(rx.accepted) + [Transfer(SAMPLE, 0, Least(4 * t.frameSize, room) / 4 % 0x1_0000)]
        else rx.accepted == old(rx.accepted) && rx.Pending() == old(rx.Pending())
    {
      if env.busy { return -EBUSY; }
      var free := rx.BuffersAvailable();
      var srcCount := if free > 0 then 4 * t.frameSize else 0;
      if srcCount / 4 == 0 || room / 4 <= 1 { return 0; }
      result := rx.Start(SAMPLE, 0, Least(srcCount, room) / 4 % 0x1_0000);
      if result < 0 { return -EFAULT; }
      result := 0;
    }

    /** The controller's interrupt: the transmit channel comes first. */
    method Interrupt(h: Happening)
      requires Valid() && h.Irq?
      modifies t`dmaCount, t`handed, t`txEnabled, t`statsBytes, t`completed, t.source`tail, t.tx, rx
      ensures Valid() && Goes()
    {
      t.Interrupt(h.tx);
      var done := rx.Acknowledge();
      if done >= 0 { var result := RxExec(h.rx, h.room); }
    }

    method Happen(h: Happening)
      requires Valid()
      modifies t`dmaCount, t`handed, t`txEnabled, t`almostFull, t`statsBytes, t`completed, t.source`tail, t.tx, rx
      ensures Valid() && Goes()
    {
      match h
      case TxFinish => t.HardwareFinish();
      case RxFinish => rx.HardwareFinish();
      case Irq(_, _, _) => Interrupt(h);
      case Exciter(enabled, almostFull) => t.SetFlags(enabled, almostFull);
    }

    method HappenAll(hs: seq<Happening>)
      requires Valid()
      modifies t`dmaCount, t`handed, t`txEnabled, t`almostFull, t`statsBytes, t`completed, t.source`tail, t.tx, rx
      ensures Valid() && Goes()
    {
      for i := 0 to |hs|
        invariant Valid() && Goes()
      {
        Happen(hs[i]);
      }
    }

    /** Time passes between two steps of a call. */
    method Pass() returns (m: Moment)
      requires Valid()
      modifies this`script
      modifies t`dmaCount, t`handed, t`txEnabled, t`almostFull, t`statsBytes, t`completed, t.source`tail, t.tx, rx
      ensures Valid() && Goes()
      ensures state == old(state) && t.written == old(t.written)
      ensures forall dest, room :: old(Offered(dest, room)) ==> Offered(dest, room)
      ensures t.cleared == old(t.cleared) && (old(Drained()) ==> Drained()) && Ceiling() == old(Ceiling())
      ensures old(Stopped()) ==> Stopped() && t.handed == old(t.handed) && Drained() == old(Drained())
      ensures old(script) != [] ==> m == old(script)[0] && script == old(script)[1..]
      ensures if old(script) == [] then script == [] && m == THE_END else |script| < |old(script)|
    {
      if script == [] { return THE_END; }
      m, script := script[0], script[1..];
      HappenAll(m.happenings);
    }

    // The transmitter's operations as steps of a call.

    method TxExec(env: Attempt) returns (result: int)
      requires Valid() && Transmitting(state)
      modifies t`dmaCount, t`handed, t`txEnabled, t.source`tail, t.tx
      ensures Valid()
    {
      result := t.Exec(env);
    }

    ghost predicate Drained()
      reads t.source, t.source.data
    {
      t.source.Valid() && t.source.Queue() == []
    }

    ghost predicate Stopped()
      reads t.tx
    {
      t.tx.Pending() == 0
    }

    /** A free region at the head of the ring, as it was offered or larger. */
    ghost predicate Offered(dest: nat, room: nat)
      reads t.source, t.source.data
    {
      && t.source.Valid() && dest == t.source.head && dest <= t.source.size
      && room <= Least(t.source.size - 4 - |t.source.Queue()|, t.source.size - dest)
    }

    ghost predicate Holds(dest: nat, src: seq<Byte>)
      reads t.source.data
    {
      dest + |src| <= t.source.data.Length && t.source.data[dest..dest + |src|] == src
    }

    lemma GivenLength(src: seq<Byte>, dest: nat, mapped: bool)
      ensures |Given(src, dest, mapped)| == |src|
      ensures !mapped ==> Given(src, dest, mapped) == src
    {
    }

    method Offer() returns (room: nat, dest: nat)
      requires Valid()
      ensures Offered(dest, room) && room <= Ceiling() && dest == t.source.head
      ensures forall d: nat, n: nat :: Offered(d, n) ==> n <= room
    {
      room, dest := t.source.SpaceAvailable();
    }

    /** What a write of `src` is to put at `dest`: those bytes or, for a mapped ring, as many that
        are there. */
    ghost function Given(src: seq<Byte>, dest: nat, mapped: bool): seq<Byte>
      reads t.source.data
    {
      if mapped && dest + |src| <= t.source.data.Length then t.source.data[dest..dest + |src|] else src
    }

    method Copy(src: seq<Byte>, dest: nat, room: nat, mapped: bool, fault: bool, part: nat) returns (ret: int)
      requires Valid() && Offered(dest, room) && |src| <= room
      modifies t.source.data
      ensures Valid() && Offered(dest, room) && ret == if !mapped && fault then -EFAULT else |src|
      ensures ret >= 0 ==> Holds(dest, old(Given(src, dest, mapped)))
    {
      ret := t.Copy(src, dest, room, mapped, fault, part);
    }

    method Produce(ghost src: seq<Byte>, ghost dest: nat, count: nat)
      requires Valid() && count == |src| && Offered(dest, count) && Holds(dest, src)
      modifies t`written, t.source`head, t.source`off
      ensures Valid() && t.written == old(t.written) + src[..Words(count)]
    {
      assert t.source.data[dest..dest + Words(count)] == t.source.data[dest..dest + count][..Words(count)];
      t.Produce(count);
    }

    lemma OfferShrinks(dest: nat, room: nat, less: nat)
      requires Offered(dest, room) && less <= room
      ensures Offered(dest, less)
    {
    }

    /** How many bytes wait in the ring. */
    ghost function Waits(): nat
      reads t.source, t.source.data
    {
      if t.source.Valid() then |t.source.Queue()| else 0
    }

    /** The most that can be offered before a write moves the head: no draining adds to it. */
    ghost function Ceiling(): nat
      reads t.source
    {
      if t.source.Valid() && t.source.size >= 4 then Least(t.source.size - 4, t.source.size - t.source.head) else 0
    }

    /** What is offered now. */
    ghost function Room(): nat
      reads t.source, t.source.data
    {
      if t.source.Valid() then Least(t.source.size - 4 - |t.source.Queue()|, t.source.size - t.source.head) else 0
    }

    /** The next `n` moments bring neither an error nor a signal. */
    ghost predicate Calm(n: nat)
      reads this`script
    {
      |script| >= n && forall i :: 0 <= i < n ==> !script[i].error && !script[i].signal
    }

    lemma RoomBelowCeiling()
      requires Valid()
      ensures Room() <= Ceiling() && (Drained() ==> Room() == Ceiling())
      ensures Offered(t.source.head, Room())
    {
    }

    /** What the outside will do next. */
    method Expect(script: seq<Moment>)
      requires Valid()
      modifies this`script
      ensures Valid() && this.script == script
    {
      this.script := script;
    }

    method Total() returns (total: nat)
      requires Valid()
      ensures total == Waits() <= |t.written|
    {
      total := t.source.DataTotal();
    }

    /** `tx_start`. */
    method Begin()
      requires Valid() && state == Idle
      modifies this`state, t`cleared, t.tx
      ensures Valid() && state == Tx && t.cleared == old(t.cleared) && Stopped()
    {
      hide Flatten, Queued, Aligned, Words, Indices;
      state := Tx;
      t.ClearChannel();
    }

    method SetState(to: State)
      requires Valid() && Transmitting(state) && Transmitting(to)
      modifies this`state
      ensures Valid() && state == to
    {
      state := to;
    }

    /** The second half of a write, once there is room for all of it. */
    method Send(src: seq<Byte>, dest: nat, room: nat, mapped: bool, fault: bool, part: nat)
      returns (ret: int)
      requires Valid() && Transmitting(state) && |src| <= room && Offered(dest, room)
      modifies this`state, this`script, t, t.source, t.source.data, t.tx, rx
      ensures Valid() && Transmitting(state) && t.cleared == old(t.cleared)
      ensures |old(Given(src, dest, mapped))| == |src|
      ensures t.written == old(t.written) + if ret < 0 then [] else old(Given(src, dest, mapped))[..Words(|src|)]
      ensures ret == if !mapped && fault then -EFAULT else |src|
      ensures state == old(state) || (state == TxStreaming && threshold <= |t.written|)
      ensures ret >= 0 && state != TxStreaming ==> Waits() < threshold
      ensures old(Stopped()) && state != TxStreaming ==> Stopped() && t.handed == old(t.handed)
    {
      hide Valid, Offered, Holds, Goes, Words, Waits, Drained, Stopped, Ceiling, Room, Given;
      ghost var bytes := Given(src, dest, mapped);
      GivenLength(src, dest, mapped);
      OfferShrinks(dest, room, |src|);
      var m := Pass();
      ret := Copy(src, dest, |src|, mapped, fault, part);
      if ret < 0 { return -EFAULT; }
      m := Pass();
      Produce(bytes, dest, ret);
      m := Pass();
      var total := Total();
      if state == TxStreaming || total >= threshold {
        SetState(TxStreaming);
        m := Pass();
        var result := TxExec(m.tx);
      }
    }

    /** Waits until `n` bytes fit, which they never do above the ceiling and at once below what is
        free already. */
    method AwaitRoom(n: nat, nonblock: bool, ghost head: nat, ghost fits: nat) returns (ret: int, room: nat, dest: nat)
      requires Valid() && Transmitting(state) && Offered(head, fits) && fits <= n && head == t.source.head
      modifies this`script, t`dmaCount, t`handed, t`txEnabled, t`almostFull, t`statsBytes, t`completed
      modifies t.source`tail, t.tx, rx
      ensures Valid() && state == old(state) && t.written == old(t.written) && t.cleared == old(t.cleared)
      ensures ret <= 0 && (ret == 0 ==> Offered(dest, room) && n <= room && dest == head)
      ensures n > old(Ceiling()) ==> ret < 0
      ensures fits == n ==> ret == 0
      ensures old(Stopped()) ==> Stopped() && t.handed == old(t.handed)
    {
      hide Valid, Offered, Holds, Goes, Words, Waits, Drained, Stopped, Ceiling, Room;
      room, dest := Offer();
      while room < n
        invariant Valid() && state == old(state) && t.written == old(t.written) && t.cleared == old(t.cleared)
        invariant Offered(dest, room) && room <= Ceiling() == old(Ceiling()) && dest == head
        invariant Offered(head, fits) && room >= fits
        invariant old(Stopped()) ==> Stopped() && t.handed == old(t.handed)
        decreases |script|
      {
        var m := Pass();
        assert Offered(head, fits);
        if m.error { return -EIO, 0, 0; }
        if nonblock { return -EAGAIN, 0, 0; }
        m := Pass();
        assert Offered(head, fits);
        if m.signal { return -ERESTARTSYS, 0, 0; }
        room, dest := Offer();
      }
      ret := 0;
    }

    /** A write either fails and sends nothing, or takes every byte; the whole words among
        them join the stream. */
    method Write(src: seq<Byte>, mapped: bool, nonblock: bool, fault: bool, part: nat) returns (ret: int)
      requires Valid()
      modifies this`state, this`script, t, t.source, t.source.data, t.tx, rx
      ensures Valid() && t.cleared == old(t.cleared)
      ensures |old(Given(src, t.source.head, mapped))| == |src|
      ensures t.written == old(t.written) +
        if ret < 0 then [] else old(Given(src, t.source.head, mapped))[..Words(|src|)]
      ensures ret < 0 || ret == |src|
      ensures ret > 0 ==> Transmitting(state) && (state != TxStreaming ==> Waits() < threshold)
      ensures state == old(state) || state == Tx || (state == TxStreaming && threshold <= |t.written|)
      ensures old(Stopped()) && state != TxStreaming ==> Stopped() && t.handed == old(t.handed)
      ensures |src| > old(Ceiling()) ==> ret < 0
      ensures old(Calm(2)) && !Receiving(old(state)) && (mapped || !fault) && |src| <= old(Room()) ==> ret == |src|
      ensures old(Calm(2) && Drained()) && !Receiving(old(state)) && (mapped || !fault) ==>
        (ret == |src| <==> |src| <= old(Ceiling()))
      ensures if Receiving(old(state)) then state == old(state) && ret < 0 else state == old(state) || Transmitting(state)
    {
      hide Valid, Offered, Holds, Goes, Words, Waits, Drained, Stopped, Ceiling, Room, Given;
      RoomBelowCeiling();
      GivenLength(src, t.source.head, mapped);
      ghost var head, fits := t.source.head, Least(Room(), |src|);
      OfferShrinks(head, Room(), fits);
      var m := Pass();
      assert Offered(head, fits);
      if m.signal { return -ERESTARTSYS; }
      if Receiving(state) { return -EBUSY; }
      if state == Idle { Begin(); }
      if |src| == 0 { return 0; }
      m := Pass();
      assert Offered(head, fits);
      if m.error { return -EIO; }
      var room, dest;
      ret, room, dest := AwaitRoom(|src|, nonblock, head, fits);
      if ret < 0 { return; }
      ret := Send(src, dest, room, mapped, fault, part);
    }

    method Waiting() returns (count: nat)
      requires Valid()
      ensures count == 0 <==> Drained()
    {
      var src;
      count, src := t.source.DataAvailable();
    }

    method TxStop() returns (ret: int)
      requires Valid()
      modifies t`txStopping, t.tx`device, t.tx`pingPong, t.tx`writes
      ensures Valid() && (old(Drained()) ==> Drained()) && (ret >= 0 <==> Stopped())
    {
      ret := t.Stop();
    }

    /** Nothing is on its way: every byte ever written has been transferred, or was dropped
        when the channel was cleared. */
    ghost predicate Settled()
      requires t.Parts()
      reads this, t, t.source, t.source.data, t.tx
    {
      && t.source.Queue() == [] && !t.tx.buf[0].started && !t.tx.buf[1].started
      && Flatten(t.handed) == t.written && |t.written| == t.completed + t.cleared
    }

    method Rest()
      requires Valid() && Transmitting(state) && Drained() && Stopped()
      modifies this`state
      ensures Valid() && state == Idle && Settled()
    {
      state := Idle;
    }

    method Drain() returns (ret: int)
      requires Valid() && state == TxStopping
      modifies this`script, t, t.source, t.tx, rx
      ensures Valid() && t.written == old(t.written) && t.cleared == old(t.cleared)
      ensures ret <= 0 && (ret == 0 ==> Drained())
      ensures !old(Drained()) && old(script) != [] && old(script)[0].error ==>
        ret == -EIO && (old(Stopped()) ==> Stopped() && t.handed == old(t.handed))
    {
      hide Valid, Drained, Stopped, Offered, Holds, Goes;
      var count := Waiting();
      while count > 0
        invariant Valid() && (count == 0 ==> Drained())
        invariant !old(Drained()) && old(script) != [] && old(script)[0].error ==>
          count > 0 && script == old(script) && (old(Stopped()) ==> Stopped() && t.handed == old(t.handed))
        invariant t.written == old(t.written) && t.cleared == old(t.cleared)
        decreases |script|
      {
        var m := Pass();
        if m.error { return -EIO; }
        m := Pass();
        var result := TxExec(m.tx);
        m := Pass();
        if m.signal { return -ERESTARTSYS; }
        count := Waiting();
      }
      ret := 0;
    }

    method StopBoth() returns (ret: int)
      requires Valid() && state == TxStopping && Drained()
      modifies this`script, t, t.source, t.tx, rx
      ensures Valid() && t.written == old(t.written) && t.cleared == old(t.cleared)
      ensures ret <= 0 && (ret == 0 ==> Drained() && Stopped())
    {
      hide Valid, Drained, Stopped, Offered, Holds, Goes;
      var free := TxStop();
      while free < 0
        invariant Valid() && Drained() && (free >= 0 <==> Stopped())
        invariant t.written == old(t.written) && t.cleared == old(t.cleared)
        decreases |script|
      {
        if script == [] { return -NEVER; }
        var m := Pass();
        if m.error { return -EIO; }
        free := TxStop();
      }
      ret := 0;
    }

    method WaitForExciter() returns (ret: int)
      requires Valid() && state == TxStopping && Drained() && Stopped()
      modifies this`script, t, t.source, t.tx, rx
      ensures Valid() && t.written == old(t.written) && t.cleared == old(t.cleared)
      ensures ret <= 0 && Drained() && Stopped()
    {
      hide Valid, Drained, Stopped, Offered, Holds, Goes;
      while t.txEnabled
        invariant Valid() && Drained() && Stopped()
        invariant t.written == old(t.written) && t.cleared == old(t.cleared)
        decreases |script|
      {
        var m := Pass();
        if m.error { return -EIO; }
        m := Pass();
        if m.signal { return -ERESTARTSYS; }
      }
      ret := 0;
    }

    method StopTransmitting() returns (ret: int)
      requires Valid() && (state == Tx || state == TxStreaming)
      modifies this`state, this`script, t, t.source, t.tx, rx
      ensures Valid() && t.written == old(t.written) && t.cleared == old(t.cleared)
      ensures ret <= 0 && if ret == 0 then state == Idle && Settled() else state == TxStopping
      ensures old(Stopped()) && !old(Drained()) && old(script) != [] && old(script)[0].error ==>
        ret == -EIO && Stopped() && t.handed == old(t.handed)
    {
      hide Valid, Drained, Stopped, Offered, Holds, Goes;
      SetState(TxStopping);
      Enable();
      ret := Drain();
      if ret < 0 { return; }
      ret := StopBoth();
      if ret < 0 { return; }
      ret := WaitForExciter();
      if ret < 0 { return; }
      Rest();
    }

    method Enable()
      requires Valid()
      modifies t`txEnabled
      ensures Valid() && t.txEnabled
    {
      t.txEnabled := true;
    }

    method StopReceiving()
      requires Valid() && Receiving(state)
      modifies this`state, rx
      ensures Valid() && state == Idle && rx.Pending() == 0
    {
      state := RxStopping;
      rx.Clear(t.pingPongMode);
      state := Idle;
    }

    /** A synchronisation that succeeds leaves nothing on its way and the device idle, whatever
        happened during its loops, from every transmit state but the one in which an earlier
        synchronisation was broken off: there it does nothing and succeeds. */
    method Fsync() returns (ret: int)
      requires Valid()
      modifies this`state, this`script, t, t.source, t.tx, rx
      ensures Valid() && t.written == old(t.written) && t.cleared == old(t.cleared) && ret <= 0
      ensures ret == 0 && Transmitting(old(state)) ==> (state == Idle && Settled() <==> old(state) != TxStopping)
      ensures old(state) == TxStopping && old(script) != [] && !old(script)[0].signal ==> ret == 0
      ensures old(state) == TxStopping && old(Stopped()) ==> Stopped() && t.handed == old(t.handed)
      ensures var broken := |old(script)| >= 2 && !old(script)[0].signal && old(script)[1].error;
        broken && (old(state) == Tx || old(state) == TxStreaming) && old(Stopped() && !Drained()) ==>
          ret == -EIO && state == TxStopping && Stopped() && t.handed == old(t.handed)
      ensures ret == 0 && (old(state) == Rx || old(state) == RxStreaming) ==> state == Idle && rx.Pending() == 0
      ensures old(state) == Idle || old(state) == TxStopping || old(state) == RxStopping ==> state == old(state)
    {
      hide Valid, Drained, Stopped, Offered, Holds, Goes, Settled;
      var m := Pass();
      if m.signal { return -ERESTARTSYS; }
      if state == Tx || state == TxStreaming {
        ret := StopTransmitting();
        if ret < 0 { return; }
      }
      if state == Rx || state == RxStreaming { StopReceiving(); }
      ret := 0;
    }

    // Receiving, as far as the channel goes.

    method RxTry(env: Attempt, room: nat) returns (result: int)
      requires Valid() && Receiving(state)
      modifies rx
      ensures Valid()
    {
      result := RxExec(env, room);
    }

    /** `rx_crank`, once the state is set. */
    method Crank(block: bool) returns (stuck: bool)
      requires Valid() && Receiving(state)
      modifies this`script, t, t.source, t.tx, rx
      ensures Valid() && t.written == old(t.written) && t.cleared == old(t.cleared)
    {
      hide Valid, Drained, Stopped, Offered, Holds, Goes;
      RxClear();
      var m := Pass();
      var result := RxTry(m.rx, m.room);
      m := Pass();
      result := RxTry(m.rx, m.room);
      if block {
        m := Pass();
        while m.received == 0
          invariant Valid() && Receiving(state) && t.written == old(t.written) && t.cleared == old(t.cleared)
          decreases |script|
        {
          if script == [] { return true; }
          m := Pass();
        }
      }
      stuck := false;
    }

    method RxClear()
      requires Valid()
      modifies rx
      ensures Valid() && rx.Pending() == 0
    {
      rx.Clear(t.pingPongMode);
    }

    method StartReceiving()
      requires Valid() && state == Idle
      modifies this`state
      ensures Valid() && state == RxStreaming
    {
      state := RxStreaming;
    }

    method Read(count: nat, nonblock: bool, fault: bool) returns (ret: int)
      requires Valid()
      modifies this`state, this`script, t, t.source, t.tx, rx
      ensures Valid() && t.written == old(t.written) && t.cleared == old(t.cleared)
      ensures if Transmitting(old(state)) then state == old(state) && ret < 0 else state == old(state) || state == RxStreaming
      ensures ret > 0 ==> Receiving(state) && ret == count
    {
      hide Valid, Drained, Stopped, Offered, Holds, Goes;
      var m := Pass();
      if m.signal { return -ERESTARTSYS; }
      if Transmitting(state) { return -EBUSY; }
      if count == 0 { return 0; }
      if state == Idle {
        StartReceiving();
        var stuck := Crank(!nonblock);
        if stuck { return -NEVER; }
      } else if state == RxStreaming {
        var result := RxTry(m.rx, m.room);
      }
      m := Pass();
      if m.signal { return -ERESTARTSYS; }
      while !m.error && m.received < count
        invariant Valid() && Receiving(state) && t.written == old(t.written) && t.cleared == old(t.cleared)
        invariant Receiving(old(state)) ==> state == old(state)
        invariant old(state) == Idle ==> state == RxStreaming
        decreases |script|
      {
        if nonblock { return -EAGAIN; }
        m := Pass();
        var result := RxTry(m.rx, m.room);
        m := Pass();
        if m.signal { return -ERESTARTSYS; }
        m := Pass();
      }
      if m.error { return -EIO; }
      if fault { return -EFAULT; }
      ret := count;
    }

    method MmapRead() returns (ret: int)
      requires Valid()
      modifies this`state, this`script, t, t.source, t.tx, rx
      ensures Valid() && t.written == old(t.written) && t.cleared == old(t.cleared)
      ensures if old(state) == Idle || old(state) == RxStreaming then state == old(state) || state == RxStreaming
        else state == old(state) && ret < 0
    {
      hide Valid, Drained, Stopped, Offered, Holds, Goes;
      var m := Pass();
      if m.signal { return -ERESTARTSYS; }
      if state == Idle {
        StartReceiving();
        var stuck := Crank(false);
      } else if state == RxStreaming {
        var result := RxTry(m.rx, m.room);
      } else {
        return -EBADFD;
      }
      m := Pass();
      if m.error { return -EIO; }
      ret := m.received;
    }
  }

  /** One system call or control call. */
  datatype Call =
    | CallWrite(src: seq<Byte>, nonblock: bool, fault: bool, part: nat)
    | CallFsync
    | CallRead(count: nat, nonblock: bool, readFault: bool)
    | CallMmapRead
    | CallExciterClear
    | CallReceiverClear

  /** The bytes the caller was told were taken. */
  function CallBytes(c: Call, ret: int): seq<Byte> {
    if c.CallWrite? && ret >= 0 then c.src[..Words(|c.src|)] else []
  }

  function Taken(calls: seq<Call>, rets: seq<int>): seq<Byte>
    requires |rets| == |calls|
  {
    if calls == [] then []
    else
      var n := |calls| - 1;
      Taken(calls[..n], rets[..n]) + CallBytes(calls[n], rets[n])
  }

  lemma TakenGrows(calls: seq<Call>, rets: seq<int>, c: Call, ret: int)
    requires |rets| == |calls|
    ensures Taken(calls + [c], rets + [ret]) == Taken(calls, rets) + CallBytes(c, ret)
  {
    hide CallBytes;
    assert (calls + [c])[..|calls|] == calls && (rets + [ret])[..|calls|] == rets;
  }

  /** No call drops what is in flight. */
  predicate NoClears(calls: seq<Call>) {
    forall i :: 0 <= i < |calls| ==> !calls[i].CallExciterClear?
  }

  lemma TakenNext(calls: seq<Call>, rets: seq<int>, ret: int)
    requires |rets| < |calls|
    ensures var i := |rets|; Taken(calls[..i + 1], rets + [ret]) == Taken(calls[..i], rets) + CallBytes(calls[i], ret)
  {
    hide Taken, CallBytes;
    var i := |rets|;
    TakenGrows(calls[..i], rets, calls[i], ret);
    assert calls[..i + 1] == calls[..i] + [calls[i]];
  }

  lemma NoClearsNext(calls: seq<Call>, i: nat)
    requires i < |calls| && NoClears(calls[..i + 1])
    ensures NoClears(calls[..i]) && !calls[i].CallExciterClear?
  {
    assert forall j :: 0 <= j <= i ==> calls[..i + 1][j] == calls[j];
  }

  lemma Associative(a: seq<Byte>, b: seq<Byte>, c: seq<Byte>)
    ensures a + (b + c) == a + b + c
  {
  }

  method Serve(d: Device, c: Call) returns (ret: int)
    requires d.Valid()
    modifies d`state, d`script, d.t, d.t.source, d.t.source.data, d.t.tx, d.rx
    ensures d.Valid()
    ensures d.t.written == old(d.t.written) + CallBytes(c, ret)
    ensures !c.CallExciterClear? ==> d.t.cleared == old(d.t.cleared)
  {
    match c
    case CallWrite(src, nonblock, fault, part) => ret := d.Write(src, false, nonblock, fault, part);
    case CallFsync => ret := d.Fsync();
    case CallRead(count, nonblock, fault) => ret := d.Read(count, nonblock, fault);
    case CallMmapRead => ret := d.MmapRead();
    case CallExciterClear => d.t.ClearChannel(); ret := 0;
    case CallReceiverClear => d.RxClear(); ret := 0;
  }

  lemma RunFacts(d: Device)
    requires d.Valid()
    ensures d.t.Parts() && d.t.written == Flatten(d.t.handed) + d.t.source.Queue()
    ensures |d.t.written| == |d.t.source.Queue()| + d.t.InFlight() + d.t.completed + d.t.cleared
    ensures d.t.tx.Pending() == 0 || d.rx.Pending() == 0
  {
  }

  method RunAll(d: Device, calls: seq<Call>) returns (rets: seq<int>)
    requires d.Valid()
    modifies d`state, d`script, d.t, d.t.source, d.t.source.data, d.t.tx, d.rx
    ensures |rets| == |calls| && d.Valid() && d.t.written == old(d.t.written) + Taken(calls, rets)
    ensures NoClears(calls) ==> d.t.cleared == old(d.t.cleared)
  {
    hide Device.Valid, CallBytes, NoClears;
    rets := [];
    ghost var told := [];
    assert calls[..|calls|] == calls && Taken(calls[..0], []) == told;
    hide Taken;
    while |rets| < |calls|
      invariant |rets| <= |calls| && d.Valid() && told == Taken(calls[..|rets|], rets)
      invariant d.t.written == old(d.t.written) + told
      invariant NoClears(calls[..|rets|]) ==> d.t.cleared == old(d.t.cleared)
    {
      ghost var i := |rets|;
      var ret := Serve(d, calls[|rets|]);
      TakenNext(calls, rets, ret);
      if NoClears(calls[..i + 1]) { NoClearsNext(calls, i); }
      Associative(old(d.t.written), told, CallBytes(calls[i], ret));
      told := told + CallBytes(calls[i], ret);
      rets := rets + [ret];
    }
  }

  /** In every run, whatever happens around and inside the calls, the written stream is what
      the callers were told was taken, the regions handed to the channel are a prefix of it and
      the ring the rest, no byte is lost, and the channels are never started both. */
  method Run(d: Device, calls: seq<Call>) returns (rets: seq<int>)
    requires d.Valid()
    modifies d`state, d`script, d.t, d.t.source, d.t.source.data, d.t.tx, d.rx
    ensures |rets| == |calls| && d.Valid()
    ensures old(d.t.written) + Taken(calls, rets) == Flatten(d.t.handed) + d.t.source.Queue()
    ensures |old(d.t.written) + Taken(calls, rets)| == |d.t.source.Queue()| + d.t.InFlight() + d.t.completed + d.t.cleared
    ensures NoClears(calls) ==> d.t.cleared == old(d.t.cleared)
    ensures d.t.tx.Pending() == 0 || d.rx.Pending() == 0
  {
    rets := RunAll(d, calls);
    RunFacts(d);
  }

  const CALM := Moment([], false, false, Attempt(false, false), Attempt(false, false), 0, 0)

  const FOUR: seq<Byte> := [1, 2, 3, 4]

  /** A device with a ring of sixteen bytes, before two uneventful moments. */
  method SmallDevice() returns (d: Device)
    ensures d.Valid() && d.state == Idle && d.Stopped() && d.Calm(2) && d.threshold == 3840 && d.Room() == 12
    ensures d.t.handed == [] && d.t.written == []
    ensures fresh(d) && fresh(d.t) && fresh(d.t.source) && fresh(d.t.source.data) && fresh(d.t.tx) && fresh(d.rx)
  {
    assert Pow2(4) == 16;
    hide Pow2, Device.Valid, Device.Stopped, Device.Drained, Device.Room, Device.Ceiling;
    d := new Device(4, 1024, 3840, false, 0, [CALM, CALM]);
  }

  lemma FourIsWhole()
    ensures FOUR[..Words(|FOUR|)] == FOUR
  {
  }

  /** Four bytes written to it wait in its ring. */
  method WriteFour() returns (d: Device, ret: int)
    ensures ret == 4 && d.Valid() && d.state == Tx && d.Stopped()
    ensures d.t.handed == [] && d.t.written == FOUR
    ensures fresh(d) && fresh(d.t) && fresh(d.t.source) && fresh(d.t.source.data) && fresh(d.t.tx) && fresh(d.rx)
  {
    hide Device.Valid, Device.Goes, Device.Waits, Device.Drained, Device.Stopped, Device.Ceiling, Device.Room,
      Device.Calm, Words;
    d := SmallDevice();
    FourIsWhole();
    ret := d.Write(FOUR, false, false, false, 0);
    assert [] + FOUR == FOUR;
  }

  /** A run in which a synchronisation succeeds with bytes still in the ring: four bytes are
      written, a first synchronisation is broken off by a hardware error, and a second one
      finds the state it left. */
  method SyncAfterBrokenSync() returns (d: Device, rets: seq<int>)
    ensures rets == [4, -EIO, 0] && d.Valid() && d.state == TxStopping
    ensures d.t.source.Queue() == d.t.written == FOUR
  {
    hide Device.Valid, Device.Goes, Device.Waits, Device.Drained, Device.Stopped, Device.Ceiling, Device.Room;
    var ret;
    d, ret := WriteFour();
    rets := [ret];
    WrittenWaits(d);
    d.Expect([CALM, CALM.(error := true)]);
    ret := d.Fsync();
    rets := rets + [ret];
    d.Expect([CALM]);
    ret := d.Fsync();
    rets := rets + [ret];
    WrittenWaits(d);
  }

  /** As long as nothing was handed over, everything written waits in the ring. */
  lemma WrittenWaits(d: Device)
    requires d.Valid() && d.t.handed == []
    ensures d.t.source.Valid() && d.t.source.Queue() == d.t.written
    ensures d.t.written != [] ==> !d.Drained()
  {
    assert Flatten([]) + d.t.source.Queue() == d.t.source.Queue();
  }
}
