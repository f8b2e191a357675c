/** One channel of the two-slot DMA controller: the driver's bookkeeping beside the registers
    of the device, which finishes accepted transfers oldest first. */
module Pdma {

  const EBUSY := 16
  const EINVAL := 22

  /** The controller's two buffers are numbered 0 (A) and 1 (B). */
  type Slot = s: nat | s < 2

  type U16 = n: nat | n < 0x1_0000

  datatype Transfer = Transfer(src: nat, dst: nat, count: U16)

  datatype Buffer = Buffer(transfer: Transfer, started: bool)

  const NOTHING := Transfer(0, 0, 0)

  function Other(s: Slot): Slot { 1 - s }

  class Channel {
    var inUse: bool
    var pingPong: int
    var next: Slot
    var buf: seq<Buffer>

    // The device: what was written to its registers, and its completion bits.
    var device: seq<Transfer>
    var complete: seq<bool>

    // The transfers accepted since the channel was cleared, how often the count of each was
    // written to the device, and how many the device finished and the driver acknowledged.
    ghost var accepted: seq<Transfer>
    ghost var writes: seq<nat>
    ghost var finished: nat
    ghost var acked: nat

    ghost predicate Counts()
      reads this
    {
      acked <= finished <= |accepted| <= acked + 2 && |writes| == |accepted|
    }

    /** How many slots are started. */
    ghost function Pending(): int
      reads this
    {
      |accepted| - acked
    }

    /** The first transfer is held back until the second one comes. */
    ghost predicate Deferred()
      reads this
    {
      pingPong == 1 && |accepted| == 1
    }

    ghost predicate Valid()
      reads this
    {
      && |buf| == |device| == |complete| == 2 && Counts()
      && next == |accepted| % 2
      && buf[next].started == (Pending() == 2) && buf[Other(next)].started == (Pending() >= 1)
      && complete[next] == (Pending() == 2 && finished > acked)
      && complete[Other(next)] == (Pending() >= 1 && finished == |accepted|)
      && (Pending() >= 1 ==> buf[Other(next)].transfer == accepted[|accepted| - 1])
      && (Pending() == 2 ==> buf[next].transfer == accepted[|accepted| - 2])
      && (pingPong == 1 ==> |accepted| <= 1 && finished == 0 && forall k :: 0 <= k < |writes| ==> writes[k] == 0)
      && (pingPong != 1 ==> forall k :: 0 <= k < |writes| ==> writes[k] == 1)
      && (Pending() >= 1 ==> Loaded(device[Other(next)], accepted[|accepted| - 1]))
      && (Pending() == 2 ==> Loaded(device[next], accepted[|accepted| - 2]))
      && (|accepted| > 0 ==> inUse)
    }

    ghost predicate Loaded(d: Transfer, t: Transfer)
      reads this
    {
      d.src == t.src && d.dst == t.dst && (Deferred() || d.count == t.count)
    }

    constructor ()
      ensures Valid() && !inUse && accepted == []
    {
      inUse, pingPong, next := false, 0, 0;
      buf, device, complete := [Buffer(NOTHING, false), Buffer(NOTHING, false)], [NOTHING, NOTHING], [false, false];
      accepted, writes, finished, acked := [], [], 0, 0;
    }

    method Clear(mode: int)
      requires Valid()
      modifies this
      ensures Valid() && accepted == [] && acked == 0 && inUse == old(inUse) && pingPong == mode
      ensures !buf[0].started && !buf[1].started && !complete[0] && !complete[1]
    {
      pingPong := mode;
      next := 0;
      buf, complete := [Buffer(NOTHING, false), Buffer(NOTHING, false)], [false, false];
      accepted, writes, finished, acked := [], [], 0, 0;
    }

    method Request(mode: int) returns (ret: int)
      requires Valid()
      modifies this
      ensures Valid() && inUse
      ensures old(inUse) ==> ret == -EBUSY && unchanged(this)
      ensures !old(inUse) ==> ret == 0 && accepted == [] && !buf[0].started && !buf[1].started
    {
      if inUse { return -EBUSY; }
      inUse := true;
      Clear(mode);
      ret := 0;
    }

    /** Writes the count that was held back. */
    method Pong()
      requires Valid() && Deferred()
      modifies this`device, this`pingPong, this`writes
      ensures Valid() && pingPong == 2 && writes == [1]
    {
      device := device[0 := device[0].(count := buf[0].transfer.count)];
      writes := writes[0 := writes[0] + 1];
      pingPong := 2;
    }

    /** What starting `t` in slot `s` comes to. */
    twostate predicate Accepts(t: Transfer, s: Slot)
      requires old(Valid()) && Valid()
      reads this
    {
      && accepted == old(accepted) + [t] && acked == old(acked) && finished == old(finished)
      && inUse == old(inUse) && complete == old(complete)
      && buf == old(buf)[s := Buffer(t, true)]
      && pingPong == (if old(Deferred()) then 2 else old(pingPong))
      && (Deferred() || device[s] == t)
    }

    method StartB(t: Transfer)
      requires Valid() && inUse && next == 1 && !buf[1].started
      modifies this
      ensures Valid() && Accepts(t, 1)
    {
      next := 0;
      buf := buf[1 := Buffer(t, true)];
      device := device[1 := device[1].(src := t.src, dst := t.dst)];
      if pingPong == 1 {
        device := device[0 := device[0].(count := buf[0].transfer.count)];
        writes := writes[0 := writes[0] + 1];
        pingPong := 2;
      }
      device := device[1 := device[1].(count := t.count)];
      accepted, writes := accepted + [t], writes + [1];
    }

    method StartA(t: Transfer)
      requires Valid() && inUse && next == 0 && !buf[0].started
      modifies this
      ensures Valid() && Accepts(t, 0)
    {
      next := 1;
      buf := buf[0 := Buffer(t, true)];
      device := device[0 := device[0].(src := t.src, dst := t.dst)];
      accepted, writes := accepted + [t], writes + [0];
      if pingPong != 1 {
        device := device[0 := device[0].(count := t.count)];
        writes := writes[|writes| - 1 := 1];
      }
    }

    /** A transfer is accepted exactly when a slot is free, and goes into the slot the last one
        did not go into. */
    method Start(src: nat, dst: nat, count: U16) returns (ret: int)
      requires Valid()
      modifies this
      ensures Valid()
      ensures ret >= 0 <==> old(inUse) && old(Pending()) < 2
      ensures ret < 0 ==> ret == (if old(inUse) then -EBUSY else -EINVAL) && unchanged(this)
      ensures ret >= 0 ==> ret == old(|accepted|) % 2 && Accepts(Transfer(src, dst, count), ret)
    {
      if !inUse { return -EINVAL; }
      if buf[0].started && buf[1].started { return -EBUSY; }
      if next == 1 && !buf[1].started {
        StartB(Transfer(src, dst, count));
        ret := 1;
      } else if next == 0 && !buf[0].started {
        StartA(Transfer(src, dst, count));
        ret := 0;
      } else {
        return -EBUSY;
      }
    }

    /** The number of free slots; a first transfer still held back is let go. */
    method BuffersAvailable() returns (n: int)
      requires Valid()
      modifies this`device, this`pingPong, this`writes
      ensures Valid() && n == if inUse then 2 - Pending() else -EINVAL
      ensures pingPong == if old(Deferred()) then 2 else old(pingPong)
    {
      if !inUse { return -EINVAL; }
      if pingPong == 1 && buf[0].started { Pong(); }
      n := 0;
      if !buf[0].started { n := n + 1; }
      if !buf[1].started { n := n + 1; }
    }

    /** The device finishes its oldest transfer, once the count has been written. */
    method HardwareFinish()
      requires Valid()
      modifies this`complete, this`finished
      ensures Valid()
      ensures finished == if old(finished) < |accepted| && pingPong != 1 then old(finished) + 1 else old(finished)
    {
      var s := if buf[next].started && !complete[next] then next else Other(next);
      if buf[s].started && !complete[s] && pingPong != 1 {
        complete := complete[s := true];
        finished := finished + 1;
      }
    }

    /** The interrupt handler's part for this channel: every slot the device reports is
        acknowledged, and the last of them is handed to the channel's callback. */
    method Acknowledge() returns (done: int)
      requires Valid()
      modifies this`complete, this`buf, this`acked
      ensures Valid() && acked == finished
      ensures done == if old(complete[1]) then 1 else if old(complete[0]) then 0 else -1
      ensures forall s: Slot :: complete[s] == false && buf[s].transfer == old(buf[s]).transfer
      ensures forall s: Slot :: buf[s].started == (old(buf[s]).started && !old(complete[s]))
    {
      done := -1;
      var status := complete;
      if status[0] {
        complete, buf := complete[0 := false], buf[0 := buf[0].(started := false)];
        done := 0;
      }
      if status[1] {
        complete, buf := complete[1 := false], buf[1 := buf[1].(started := false)];
        done := 1;
      }
      acked := finished;
    }
  }

  /** Anything that may happen to a channel between two clears. */
  datatype Event = TryStart(src: nat, dst: nat, count: U16) | Ask | Finish | Interrupt

  /** A start succeeds exactly when the driver was told that a slot is free. */
  method AskAndStart(c: Channel, src: nat, dst: nat, count: U16) returns (slot: int)
    requires c.Valid() && c.inUse
    modifies c
    ensures c.Valid() && c.inUse
    ensures slot < 0 ==> c.accepted == old(c.accepted)
    ensures slot >= 0 ==> c.accepted == old(c.accepted) + [Transfer(src, dst, count)] && slot == old(|c.accepted|) % 2
  {
    var free := c.BuffersAvailable();
    slot := c.Start(src, dst, count);
    assert slot >= 0 <==> free > 0;
  }

  /** In every run the accepted transfers alternate between the slots, each is accepted exactly
      when the driver was told that a slot is free, and each count is written to the device
      once, unless the first transfer is still held back. */
  method Drive(c: Channel, events: seq<Event>) returns (slots: seq<int>)
    requires c.Valid() && c.inUse
    modifies c
    ensures c.Valid() && c.inUse && |c.accepted| == old(|c.accepted|) + |slots|
    ensures c.accepted[..old(|c.accepted|)] == old(c.accepted)
    ensures forall k :: 0 <= k < |slots| ==> slots[k] == (old(|c.accepted|) + k) % 2
    ensures |c.writes| == |c.accepted| && forall k :: 0 <= k < |c.writes| ==> c.writes[k] == if c.Deferred() then 0 else 1
  {
    slots := [];
    for i := 0 to |events|
      invariant c.Valid() && c.inUse && |c.accepted| == old(|c.accepted|) + |slots|
      invariant c.accepted[..old(|c.accepted|)] == old(c.accepted)
      invariant forall k :: 0 <= k < |slots| ==> slots[k] == (old(|c.accepted|) + k) % 2
    {
      match events[i]
      case TryStart(src, dst, count) =>
        var slot := AskAndStart(c, src, dst, count);
        if slot >= 0 { slots := slots + [slot]; }
      case Ask =>
        var n := c.BuffersAvailable();
      case Finish =>
        c.HardwareFinish();
      case Interrupt =>
        var done := c.Acknowledge();
    }
  }
}
